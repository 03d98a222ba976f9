// Unsigned machine-word bit operations on natural numbers: powers of two,
// bitwise AND, shifts and bit length, with the arithmetic facts the blocked
// array and the mipmap pyramid rely on.
module Bits {
  function Pow2(k: nat): (p: nat)
    ensures p >= 1
  {
    if k == 0 then 1 else 2 * Pow2(k - 1)
  }

  const UsizeBits: nat := 64
  /** 2^64, one more than `usize::MAX`. */
  const UsizeLimit: nat := 0x1_0000_0000_0000_0000

  lemma {:induction false} Pow2Add(a: nat, b: nat)
    ensures Pow2(a + b) == Pow2(a) * Pow2(b)
    decreases a
  {
    if a > 0 {
      Pow2Add(a - 1, b);
      assert Pow2(a + b) == 2 * Pow2(a - 1 + b);
    }
  }

  lemma UsizeLimitIsPow2()
    ensures Pow2(UsizeBits) == UsizeLimit
  {
    assert Pow2(4) == 16;
    Pow2Add(4, 4);
    assert Pow2(8) == 0x100;
    Pow2Add(8, 8);
    assert Pow2(16) == 0x1_0000;
    Pow2Add(16, 16);
    assert Pow2(32) == 0x1_0000_0000;
    Pow2Add(32, 32);
  }

  /** Bitwise AND of two unsigned integers, bit by bit from the lowest. */
  function BitAnd(a: nat, b: nat): nat {
    if a == 0 || b == 0 then 0
    else 2 * BitAnd(a / 2, b / 2) + (if a % 2 == 1 && b % 2 == 1 then 1 else 0)
  }

  /** `a >> k` on an unsigned integer: k halvings. */
  function Shr(a: nat, k: nat): nat {
    if k == 0 then a else Shr(a / 2, k - 1)
  }

  /** The number of significant bits; 0 for 0. */
  function BitLength(n: nat): nat {
    if n == 0 then 0 else 1 + BitLength(n / 2)
  }

  lemma {:induction false} Pow2Monotone(i: nat, j: nat)
    requires i <= j
    ensures Pow2(i) <= Pow2(j)
    decreases j
  {
    if i < j {
      Pow2Monotone(i, j - 1);
    }
  }

  lemma {:induction false} MulAtLeast(d: int, x: int)
    requires d > 0 && x >= 1
    ensures d * x >= d
    decreases x
  {
    if x > 1 {
      MulAtLeast(d, x - 1);
      assert d * x == d * (x - 1) + d;
    }
  }

  lemma ZeroMod(d: int)
    requires d > 0
    ensures 0 % d == 0
  {
  }

  lemma DivMod(a: int, d: int)
    requires d > 0
    ensures a == (a / d) * d + a % d && 0 <= a % d < d
  {
  }

  lemma ModUnique(a: int, d: int, t: int, s: int)
    requires d > 0 && a == d * t + s && 0 <= s < d
    ensures a % d == s && a / d == t
  {
    var q, r := a / d, a % d;
    assert d * q + r == d * t + s;
    if t > q {
      MulAtLeast(d, t - q);
    } else if t < q {
      MulAtLeast(d, q - t);
    }
  }

  /** `(a / 2) % p` and `a % 2` together give `a % (2 p)`. */
  lemma ModDouble(a: nat, p: nat)
    requires p > 0
    ensures a % (2 * p) == 2 * ((a / 2) % p) + a % 2
  {
    DivModDouble(a, p);
  }

  /** Halving and then dividing by p divides by 2 p. */
  lemma DivDouble(a: nat, p: nat)
    requires p > 0
    ensures a / (2 * p) == (a / 2) / p
  {
    DivModDouble(a, p);
  }

  lemma DivModDouble(a: nat, p: nat)
    requires p > 0
    ensures a % (2 * p) == 2 * ((a / 2) % p) + a % 2
    ensures a / (2 * p) == (a / 2) / p
  {
    var q, r := a / 2, a % 2;
    var t, s := q / p, q % p;
    assert a == (2 * p) * t + (2 * s + r);
    ModUnique(a, 2 * p, t, 2 * s + r);
  }

  /** The low k bits of a, read off one halving at a time. */
  function LowBits(a: nat, k: nat): nat {
    if k == 0 then 0 else 2 * LowBits(a / 2, k - 1) + a % 2
  }

  lemma {:induction false} LowBitsOfZero(k: nat)
    ensures LowBits(0, k) == 0
  {
    if k > 0 {
      LowBitsOfZero(k - 1);
    }
  }

  /** The low k bits are the remainder modulo `2^k`. */
  lemma {:induction false} LowBitsIsMod(a: nat, k: nat)
    ensures LowBits(a, k) == a % Pow2(k)
  {
    if k > 0 {
      var p := Pow2(k - 1);
      LowBitsIsMod(a / 2, k - 1);
      ModDouble(a, p);
      assert Pow2(k) == 2 * p;
    }
  }

  /** Masking with `2^k - 1` keeps the low k bits, bit by bit. */
  lemma {:induction false} BitAndLowBits(a: nat, k: nat)
    ensures BitAnd(a, Pow2(k) - 1) == LowBits(a, k)
  {
    if k > 0 && a > 0 {
      var p := Pow2(k - 1);
      var m := Pow2(k) - 1;
      assert m == 2 * p - 1 && m / 2 == p - 1 && m % 2 == 1;
      BitAndLowBits(a / 2, k - 1);
    } else if a == 0 {
      LowBitsOfZero(k);
    }
  }

  /** Masking with `2^k - 1` keeps the low k bits. */
  lemma BitAndLowMask(a: nat, k: nat)
    ensures BitAnd(a, Pow2(k) - 1) == a % Pow2(k)
  {
    BitAndLowBits(a, k);
    LowBitsIsMod(a, k);
  }

  /**
   * Masking a w-bit value with `!(2^k - 1)`, which is `2^w - 2^k` on w-bit
   * words, clears the low k bits.
   */
  lemma {:induction false} BitAndHighMask(a: nat, k: nat, w: nat)
    requires k <= w && Pow2(k) <= Pow2(w) && a < Pow2(w)
    ensures BitAnd(a, Pow2(w) - Pow2(k)) == a - a % Pow2(k)
    decreases k
  {
    if k == 0 {
      BitAndLowMask(a, w);
      ModUnique(a, Pow2(w), 0, a);
    } else if a == 0 {
    } else if k == w {
      ModUnique(a, Pow2(w), 0, a);
    } else {
      var m := Pow2(w) - Pow2(k);
      var p := Pow2(k - 1);
      assert Pow2(k) == 2 * p;
      assert m / 2 == Pow2(w - 1) - p && m % 2 == 0;
      Pow2Monotone(k - 1, w - 1);
      BitAndHighMask(a / 2, k - 1, w - 1);
      var h := BitAnd(a / 2, m / 2);
      assert h == a / 2 - (a / 2) % p;
      assert BitAnd(a, m) == 2 * h;
      ModDouble(a, p);
    }
  }

  /** Shifting right by k divides by `2^k`. */
  lemma {:induction false} ShrIsDiv(a: nat, k: nat)
    ensures Shr(a, k) == a / Pow2(k)
  {
    if k > 0 {
      ShrIsDiv(a / 2, k - 1);
      DivDouble(a, Pow2(k - 1));
    }
  }

  lemma {:induction false} BitAndSelf(a: nat)
    ensures BitAnd(a, a) == a
  {
    if a > 0 {
      BitAndSelf(a / 2);
    }
  }

  /** A positive n lies in `[2^(len-1), 2^len)`, len being its bit length. */
  lemma {:induction false} BitLengthBounds(n: nat)
    requires n > 0
    ensures BitLength(n) >= 1
    ensures Pow2(BitLength(n) - 1) <= n < Pow2(BitLength(n))
  {
    if n > 1 {
      BitLengthBounds(n / 2);
    }
  }

  lemma {:induction false} BitLengthOfPow2(k: nat)
    ensures BitLength(Pow2(k)) == k + 1
  {
    if k > 0 {
      assert Pow2(k) / 2 == Pow2(k - 1);
      BitLengthOfPow2(k - 1);
    }
  }

  /** A value below `2^w` has at most w bits. */
  lemma {:induction false} BitLengthBelow(n: nat, w: nat)
    requires n < Pow2(w)
    ensures BitLength(n) <= w
  {
    if n > 0 {
      assert w > 0;
      BitLengthBelow(n / 2, w - 1);
    }
  }

  lemma {:induction false} Pow2StrictMonotone(i: nat, j: nat)
    requires i < j
    ensures Pow2(i) < Pow2(j)
    decreases j
  {
    if i < j - 1 {
      Pow2StrictMonotone(i, j - 1);
    }
  }

  /** Two numbers whose top bit is bit j share it, so their AND is at least `2^j`. */
  lemma {:induction false} BitAndTopBit(a: nat, b: nat, j: nat)
    requires Pow2(j) <= a < Pow2(j + 1) && Pow2(j) <= b < Pow2(j + 1)
    ensures BitAnd(a, b) >= Pow2(j)
  {
    if j > 0 {
      BitAndTopBit(a / 2, b / 2, j - 1);
    }
  }
}
