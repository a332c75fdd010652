/**
 Unsigned machine words as natural numbers: shifts, masks and the bitwise operators.
 `Low(a, k)` is what is kept of a when it is stored in a k-bit word.
 */
module Bits {

  function Pow2(n: nat): (p: nat)
    ensures p >= 1
  {
    if n == 0 then 1 else 2 * Pow2(n - 1)
  }

  /** a >> k */
  function Shr(a: nat, k: nat): nat
    decreases k
  {
    if k == 0 then a else Shr(a / 2, k - 1)
  }

  /** The k low bits of a. */
  function Low(a: nat, k: nat): (r: nat)
    ensures r < Pow2(k)
    decreases k
  {
    if k == 0 then 0 else a % 2 + 2 * Low(a / 2, k - 1)
  }

  /** a << k, before it is stored in a word. */
  function Shl(a: nat, k: nat): nat {
    a * Pow2(k)
  }

  /** Difference of two N-bit words, in an N-bit word. */
  function SubWrap(a: nat, b: nat, width: nat): nat
    requires a < Pow2(width) && b < Pow2(width)
  {
    if a >= b then a - b else a + Pow2(width) - b
  }

  function BitAnd(a: nat, b: nat): nat
    decreases a
  {
    if a == 0 || b == 0 then 0
    else (if a % 2 == 1 && b % 2 == 1 then 1 else 0) + 2 * BitAnd(a / 2, b / 2)
  }

  function BitOr(a: nat, b: nat): nat
    decreases a + b
  {
    if a == 0 then b else if b == 0 then a
    else (if a % 2 == 1 || b % 2 == 1 then 1 else 0) + 2 * BitOr(a / 2, b / 2)
  }

  function BitXor(a: nat, b: nat): nat
    decreases a + b
  {
    if a == 0 then b else if b == 0 then a
    else (if a % 2 != b % 2 then 1 else 0) + 2 * BitXor(a / 2, b / 2)
  }

  lemma {:induction false} Pow2Add(a: nat, b: nat)
    ensures Pow2(a + b) == Pow2(a) * Pow2(b)
  {
    if a > 0 {
      Pow2Add(a - 1, b);
    }
  }

  lemma {:induction false} Pow2Mono(a: nat, b: nat)
    requires a <= b
    ensures Pow2(a) <= Pow2(b)
  {
    if a < b {
      Pow2Mono(a, b - 1);
    }
  }

  lemma SmallMultipleIsZero(d: int, b: int)
    requires -b < d * b < b
    ensures d == 0
  {
  }

  /** Splitting a word at bit k. */
  lemma {:induction false} Split(a: nat, k: nat)
    ensures a == Shr(a, k) * Pow2(k) + Low(a, k)
    decreases k
  {
    if k > 0 {
      Split(a / 2, k - 1);
      Double(Shr(a, k), Pow2(k - 1));
    }
  }

  lemma SplitUnique(a: nat, k: nat, hi: int, lo: int)
    requires 0 <= lo < Pow2(k) && a == hi * Pow2(k) + lo
    ensures Shr(a, k) == hi && Low(a, k) == lo
  {
    Split(a, k);
    Distribute(Shr(a, k), hi, Pow2(k));
    SmallMultipleIsZero(Shr(a, k) - hi, Pow2(k));
  }

  lemma LowOfSmall(a: nat, k: nat)
    requires a < Pow2(k)
    ensures Low(a, k) == a && Shr(a, k) == 0
  {
    SplitUnique(a, k, 0, a);
  }

  lemma {:induction false} ShrShr(a: nat, j: nat, k: nat)
    ensures Shr(Shr(a, j), k) == Shr(a, j + k)
    decreases j
  {
    if j > 0 {
      ShrShr(a / 2, j - 1, k);
    }
  }

  lemma {:induction false} LowLow(a: nat, j: nat, k: nat)
    ensures Low(a, j + k) == Low(Shr(a, j), k) * Pow2(j) + Low(a, j)
    decreases j
  {
    if j > 0 {
      LowLow(a / 2, j - 1, k);
      Double(Low(Shr(a, j), k), Pow2(j - 1));
    }
  }

  lemma Double(h: nat, p: nat)
    ensures 2 * (h * p) == h * (2 * p)
  {
  }

  /** Subtraction in N-bit words is exact when the true difference fits. */
  lemma SubWrapExact(a: nat, b: nat, width: nat)
    requires 0 <= a - b < Pow2(width)
    ensures SubWrap(Low(a, width), Low(b, width), width) == a - b
  {
    Split(a, width);
    Split(b, width);
    BorrowOnce(Shr(a, width), Shr(b, width), Pow2(width), Low(a, width), Low(b, width), a - b);
  }

  lemma BorrowOnce(h: int, l: int, m: nat, x: nat, y: nat, diff: nat)
    requires x < m && y < m && diff < m
    requires diff == (h * m + x) - (l * m + y)
    ensures diff == if x >= y then x - y else x + m - y
  {
    Distribute(h, l, m);
    if x >= y {
      SmallMultipleIsZero(h - l, m);
    } else {
      Distribute(h - l, 1, m);
      SmallMultipleIsZero(h - l - 1, m);
    }
  }

  lemma Distribute(x: int, y: int, m: int)
    ensures (x - y) * m == x * m - y * m
    ensures (x + y) * m == x * m + y * m
  {
  }

  /** A mask of k ones keeps the k low bits. */
  lemma {:induction false} AndMask(a: nat, k: nat)
    ensures BitAnd(a, Pow2(k) - 1) == Low(a, k)
    decreases k
  {
    if k > 0 && a > 0 {
      AndMask(a / 2, k - 1);
      assert (Pow2(k) - 1) / 2 == Pow2(k - 1) - 1;
    } else {
      LowOfSmall(0, k);
    }
  }

  /** Masking with a single bit. */
  lemma {:induction false} AndBit(a: nat, k: nat)
    ensures BitAnd(a, Pow2(k)) == Shr(a, k) % 2 * Pow2(k)
    decreases k
  {
    if a > 0 && k > 0 {
      AndBit(a / 2, k - 1);
    } else {
      LowOfSmall(0, k);
    }
  }

  /** OR of a word whose k low bits are clear with a word of k bits adds them. */
  lemma {:induction false} OrDisjoint(a: nat, b: nat, k: nat)
    requires b < Pow2(k)
    ensures BitOr(Shl(a, k), b) == Shl(a, k) + b
    decreases k
  {
    assert k > 0 ==> Pow2(k) == 2 * Pow2(k - 1);
    hide Pow2;
    if k > 0 && a > 0 && b > 0 {
      OrDisjoint(a, b / 2, k - 1);
      Double(a, Pow2(k - 1));
      assert Shl(a, k) == 2 * Shl(a, k - 1);
    }
  }

  lemma {:induction false} OrComm(a: nat, b: nat)
    ensures BitOr(a, b) == BitOr(b, a)
    decreases a + b
  {
    if a > 0 && b > 0 {
      OrComm(a / 2, b / 2);
    }
  }

  /** Adding a multiple of the word size is not seen in the word. */
  lemma LowOfSum(h: nat, a: nat, width: nat)
    ensures Low(h * Pow2(width) + a, width) == Low(a, width)
  {
    Split(a, width);
    Distribute(h, Shr(a, width), Pow2(width));
    SplitUnique(h * Pow2(width) + a, width, h + Shr(a, width), Low(a, width));
  }

  /** Truncating before or after a left shift stores the same word. */
  lemma LowOfShl(a: nat, k: nat, width: nat)
    ensures Low(Shl(Low(a, width), k), width) == Low(Shl(a, k), width)
  {
    hide Low, Shr, Pow2;
    Split(a, width);
    var h, l, m := Shr(a, width), Low(a, width), Pow2(width);
    assert (h * m + l) * Pow2(k) == (h * Pow2(k)) * m + l * Pow2(k);
    LowOfSum(h * Pow2(k), l * Pow2(k), width);
  }

  lemma ShrOfShl(a: nat, j: nat, k: nat)
    ensures Shr(Shl(a, j + k), k) == Shl(a, j)
  {
    hide Pow2, Low, Shr;
    Pow2Add(j, k);
    assert a * (Pow2(j) * Pow2(k)) == (a * Pow2(j)) * Pow2(k);
    SplitUnique(Shl(a, j + k), k, Shl(a, j), 0);
  }

  /** OR with a flag sets the lowest bit. */
  lemma OrFlag(a: nat, flag: bool)
    ensures BitOr(a, if flag then 1 else 0) == if flag && a % 2 == 0 then a + 1 else a
  {
    if a > 0 {
      assert BitOr(a / 2, 0) == a / 2;
    }
  }

  /** XOR with the leading bit clears it. */
  lemma {:induction false} XorLeading(b: nat, k: nat)
    requires b < Pow2(k)
    ensures BitXor(Pow2(k) + b, Pow2(k)) == b
    decreases k
  {
    if k > 0 {
      XorLeading(b / 2, k - 1);
    }
  }

  /** OR and exclusive OR stay in the word; OR clears nothing. */
  lemma {:induction false} OrBounds(a: nat, b: nat, k: nat)
    requires a < Pow2(k) && b < Pow2(k)
    ensures b <= BitOr(a, b) < Pow2(k)
    decreases k
  {
    if k > 0 {
      OrBounds(a / 2, b / 2, k - 1);
    }
  }

  lemma {:induction false} XorBound(a: nat, b: nat, k: nat)
    requires a < Pow2(k) && b < Pow2(k)
    ensures BitXor(a, b) < Pow2(k)
    decreases k
  {
    if k > 0 {
      XorBound(a / 2, b / 2, k - 1);
    }
  }
}

module Bytes {
  type byte = b: int | 0 <= b < 256
}
