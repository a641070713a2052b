/**
 * `uint32_t` values used as bit sets. A word is a natural below 2^32; the
 * bitwise operators are written out on its binary digits, lowest first, so
 * that bit `j` of `x` is `HasBit(x, j)`. `x >> 1` is `x / 2`, `x & 0x1` is
 * `And(x, 1)` and `1 << k` is `Pow2(k)`.
 */
module Bitset {

  const WordLimit: nat := 0x1_0000_0000

  /** A `uint32_t`. */
  type Word = x: nat | x < 0x1_0000_0000

  function Pow2(n: nat): (r: nat)
    ensures r >= 1
  {
    if n == 0 then 1 else 2 * Pow2(n - 1)
  }

  /** `x | y`. */
  function Or(x: nat, y: nat): nat
    decreases x + y
  {
    if x == 0 then y
    else if y == 0 then x
    else 2 * Or(x / 2, y / 2) + (if x % 2 == 1 || y % 2 == 1 then 1 else 0)
  }

  /** `x & y`. */
  function And(x: nat, y: nat): nat
    decreases x + y
  {
    if x == 0 || y == 0 then 0
    else 2 * And(x / 2, y / 2) + (if x % 2 == 1 && y % 2 == 1 then 1 else 0)
  }

  /** Bit `j` of `x` is set. */
  predicate HasBit(x: nat, j: nat) {
    if j == 0 then x % 2 == 1 else HasBit(x / 2, j - 1)
  }

  /** `x` shifted right by `i`, one position at a time. */
  function Shifted(x: nat, i: nat): nat {
    if i == 0 then x else Shifted(x, i - 1) / 2
  }

  lemma {:induction false} NoBitOfZero(j: nat)
    ensures !HasBit(0, j)
  {
    if j > 0 {
      NoBitOfZero(j - 1);
    }
  }

  lemma {:induction false} OrBit(x: nat, y: nat, j: nat)
    ensures HasBit(Or(x, y), j) <==> HasBit(x, j) || HasBit(y, j)
    decreases j
  {
    if x == 0 {
      NoBitOfZero(j);
    } else if y == 0 {
      NoBitOfZero(j);
    } else if j > 0 {
      var r := Or(x / 2, y / 2);
      assert Or(x, y) / 2 == r;
      OrBit(x / 2, y / 2, j - 1);
    }
  }

  lemma {:induction false} AndBit(x: nat, y: nat, j: nat)
    ensures HasBit(And(x, y), j) <==> HasBit(x, j) && HasBit(y, j)
    decreases j
  {
    if x == 0 || y == 0 {
      NoBitOfZero(j);
    } else if j > 0 {
      var r := And(x / 2, y / 2);
      assert And(x, y) / 2 == r;
      AndBit(x / 2, y / 2, j - 1);
    }
  }

  /** `1 << k` has bit `k` and no other. */
  lemma {:induction false} PowBit(k: nat, j: nat)
    ensures HasBit(Pow2(k), j) <==> j == k
  {
    if k == 0 {
      if j > 0 {
        NoBitOfZero(j - 1);
      }
    } else if j > 0 {
      assert Pow2(k) / 2 == Pow2(k - 1);
      PowBit(k - 1, j - 1);
    }
  }

  /** A set bit `j` makes the word at least `2^j`. */
  lemma {:induction false} BitBound(x: nat, j: nat)
    requires HasBit(x, j)
    ensures x >= Pow2(j)
  {
    if j > 0 {
      BitBound(x / 2, j - 1);
    }
  }

  lemma {:induction false} Pow2Monotone(i: nat, j: nat)
    requires i <= j
    ensures Pow2(i) <= Pow2(j)
  {
    if i < j {
      Pow2Monotone(i, j - 1);
    }
  }

  lemma Pow2Width()
    ensures Pow2(32) == WordLimit
  {
    assert Pow2(8) == 0x100;
    assert Pow2(16) == 0x1_0000;
    assert Pow2(24) == 0x100_0000;
  }

  /** A word has no bit at position 32 or above. */
  lemma WordBits(x: Word, j: nat)
    requires j >= 32
    ensures !HasBit(x, j)
  {
    if HasBit(x, j) {
      BitBound(x, j);
      Pow2Monotone(32, j);
      Pow2Width();
    }
  }

  lemma {:induction false} OrBound(x: nat, y: nat, n: nat)
    requires x < Pow2(n) && y < Pow2(n)
    ensures Or(x, y) < Pow2(n)
    decreases n
  {
    if x != 0 && y != 0 {
      OrBound(x / 2, y / 2, n - 1);
    }
  }

  lemma {:induction false} AndBound(x: nat, y: nat)
    ensures And(x, y) <= x && And(x, y) <= y
    decreases x + y
  {
    if x != 0 && y != 0 {
      AndBound(x / 2, y / 2);
    }
  }

  /** Setting bit `k < 32` of a word gives a word. */
  lemma SetBitWord(x: Word, k: nat)
    requires k < 32
    ensures Or(x, Pow2(k)) < WordLimit
  {
    Pow2Width();
    Pow2Monotone(k + 1, 32);
    OrBound(x, Pow2(k), 32);
  }

  lemma AndOne(x: nat)
    ensures And(x, 1) == x % 2
  {
  }

  /** Bit `j` of `x` shifted right by `i` is bit `i + j` of `x`. */
  lemma {:induction false} ShiftedBits(x: nat, i: nat, j: nat)
    ensures HasBit(Shifted(x, i), j) <==> HasBit(x, i + j)
  {
    if i > 0 {
      ShiftedBits(x, i - 1, j + 1);
    }
  }
}
