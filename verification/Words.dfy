/**
 Machine words as natural numbers below 2^64, with the bit operations the
 C sources apply to `unsigned long` written out bit by bit.
 */
module Words {

  function Pow2(n: nat): (r: nat)
    ensures 1 <= r
  {
    if n == 0 then 1 else 2 * Pow2(n - 1)
  }

  /** Bits in an unsigned long. */
  const WORD: nat := 64

  const WORD_LIMIT: nat := 0x1_0000_0000_0000_0000

  type Word = w: nat | w < WORD_LIMIT

  /** Bit i of a word: `w & (1UL << i)`. */
  predicate IsSet(w: nat, i: nat)
    decreases i
  {
    if i == 0 then w % 2 == 1 else IsSet(w / 2, i - 1)
  }

  function OrBits(a: nat, b: nat): nat
    decreases a + b
  {
    if a == 0 && b == 0 then 0
    else 2 * OrBits(a / 2, b / 2) + (if a % 2 == 1 || b % 2 == 1 then 1 else 0)
  }

  function AndBits(a: nat, b: nat): nat
    decreases a + b
  {
    if a == 0 || b == 0 then 0
    else 2 * AndBits(a / 2, b / 2) + (if a % 2 == 1 && b % 2 == 1 then 1 else 0)
  }

  lemma {:induction false} ZeroBits(i: nat)
    ensures !IsSet(0, i)
    decreases i
  {
    if i > 0 {
      ZeroBits(i - 1);
    }
  }

  lemma LowBit(q: nat, r: nat)
    requires r < 2
    ensures (2 * q + r) / 2 == q && (2 * q + r) % 2 == r
  {
  }

  lemma {:induction false} OrBit(a: nat, b: nat, i: nat)
    ensures IsSet(OrBits(a, b), i) <==> IsSet(a, i) || IsSet(b, i)
    decreases i
  {
    if a == 0 && b == 0 {
      ZeroBits(i);
    } else {
      LowBit(OrBits(a / 2, b / 2), if a % 2 == 1 || b % 2 == 1 then 1 else 0);
      if i > 0 {
        OrBit(a / 2, b / 2, i - 1);
      }
    }
  }

  lemma {:induction false} AndBit(a: nat, b: nat, i: nat)
    ensures IsSet(AndBits(a, b), i) <==> IsSet(a, i) && IsSet(b, i)
    decreases i
  {
    if a == 0 || b == 0 {
      ZeroBits(i);
    } else {
      LowBit(AndBits(a / 2, b / 2), if a % 2 == 1 && b % 2 == 1 then 1 else 0);
      if i > 0 {
        AndBit(a / 2, b / 2, i - 1);
      }
    }
  }

  lemma {:induction false} OrFits(a: nat, b: nat, k: nat)
    requires a < Pow2(k) && b < Pow2(k)
    ensures OrBits(a, b) < Pow2(k)
    decreases k
  {
    if k > 0 {
      OrFits(a / 2, b / 2, k - 1);
    }
  }

  lemma {:induction false} AndFits(a: nat, b: nat, k: nat)
    requires a < Pow2(k)
    ensures AndBits(a, b) < Pow2(k)
    decreases k
  {
    if k > 0 && a != 0 && b != 0 {
      AndFits(a / 2, b / 2, k - 1);
    }
  }

  lemma Pow2Word()
    ensures Pow2(WORD) == WORD_LIMIT
  {
    assert Pow2(8) == 0x100;
    assert Pow2(16) == 0x1_0000;
    assert Pow2(24) == 0x100_0000;
    assert Pow2(32) == 0x1_0000_0000;
    assert Pow2(40) == 0x100_0000_0000;
    assert Pow2(48) == 0x1_0000_0000_0000;
    assert Pow2(56) == 0x100_0000_0000_0000;
  }

  lemma {:induction false} Pow2Monotone(a: nat, b: nat)
    requires a <= b
    ensures Pow2(a) <= Pow2(b)
    ensures a < b ==> Pow2(a) < Pow2(b)
    decreases b
  {
    if a < b {
      Pow2Monotone(a, b - 1);
    }
  }

  function Or(a: Word, b: Word): Word {
    Pow2Word();
    OrFits(a, b, WORD);
    OrBits(a, b)
  }

  function And(a: Word, b: Word): Word {
    Pow2Word();
    AndFits(a, b, WORD);
    AndBits(a, b)
  }

  /** `(1UL << n) - 1`. */
  function Below(n: nat): Word
    requires n < WORD
  {
    Pow2Word();
    Pow2Monotone(n, WORD);
    Pow2(n) - 1
  }

  /** `-(1UL << n)`, which wraps to 2^64 - 2^n. */
  function From(n: nat): Word
    requires n < WORD
  {
    Pow2Word();
    Pow2Monotone(n, WORD);
    WORD_LIMIT - Pow2(n)
  }

  /** `~0UL`. */
  const ONES: Word := WORD_LIMIT - 1

  lemma {:induction false} BelowBits(n: nat, i: nat)
    ensures IsSet(Pow2(n) - 1, i) <==> i < n
    decreases i
  {
    if n == 0 {
      ZeroBits(i);
    } else if i > 0 {
      BelowBits(n - 1, i - 1);
      assert (Pow2(n) - 1) / 2 == Pow2(n - 1) - 1;
    }
  }

  lemma {:induction false} FromBits(n: nat, k: nat, i: nat)
    requires n <= k
    requires Pow2(n) <= Pow2(k)
    ensures IsSet(Pow2(k) - Pow2(n), i) <==> n <= i < k
    decreases i
  {
    if n == 0 {
      BelowBits(k, i);
    } else if i > 0 {
      Pow2Monotone(n - 1, k - 1);
      FromBits(n - 1, k - 1, i - 1);
      assert (Pow2(k) - Pow2(n)) / 2 == Pow2(k - 1) - Pow2(n - 1);
    }
  }

  /** The comment above map_alloc: (1<<n)-1 sets the bits below n, -(1<<n) the rest. */
  lemma MaskBits(n: nat, i: nat)
    requires n < WORD && i < WORD
    ensures IsSet(Below(n), i) <==> i < n
    ensures IsSet(From(n), i) <==> n <= i
    ensures IsSet(ONES, i)
  {
    Pow2Word();
    Pow2Monotone(n, WORD);
    BelowBits(n, i);
    FromBits(n, WORD, i);
    BelowBits(WORD, i);
  }
}
