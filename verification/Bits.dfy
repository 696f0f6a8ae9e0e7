/** The C operators `^`, `&` and `|` on non-negative integers of any width, bit by bit. */
module Bits {
  import opened Arith

  type u8 = x: int | 0 <= x < 0x100
  type u32 = x: int | 0 <= x < 0x1_0000_0000
  type i64 = x: int | -0x8000_0000_0000_0000 <= x < 0x8000_0000_0000_0000

  function Xor(x: nat, y: nat): (r: nat) {
    if x == 0 && y == 0 then 0 else (x % 2 + y % 2) % 2 + 2 * Xor(x / 2, y / 2)
  }

  function And(x: nat, y: nat): (r: nat) {
    if x == 0 && y == 0 then 0 else (if x % 2 == 1 && y % 2 == 1 then 1 else 0) + 2 * And(x / 2, y / 2)
  }

  function Or(x: nat, y: nat): (r: nat) {
    if x == 0 && y == 0 then 0
    else (if x % 2 == 1 || y % 2 == 1 then 1 else 0) + 2 * Or(x / 2, y / 2)
  }

  lemma {:induction false} XorComm(x: nat, y: nat)
    ensures Xor(x, y) == Xor(y, x)
  {
    if x != 0 || y != 0 {
      XorComm(x / 2, y / 2);
    }
  }

  lemma {:induction false} XorZero(x: nat)
    ensures Xor(x, 0) == x && Xor(0, x) == x
  {
    if x != 0 {
      XorZero(x / 2);
    }
  }

  lemma {:induction false} XorSelf(x: nat)
    ensures Xor(x, x) == 0
  {
    if x != 0 {
      XorSelf(x / 2);
    }
  }

  /** Exclusive or with the same mask twice gives the first operand back. */
  lemma {:induction false} XorTwice(x: nat, y: nat)
    ensures Xor(Xor(x, y), y) == x
    ensures Xor(y, Xor(x, y)) == x
  {
    if x == 0 && y == 0 {
    } else {
      XorTwice(x / 2, y / 2);
      XorTwiceStep(x, y);
    }
  }

  lemma XorTwiceStep(x: nat, y: nat)
    requires Xor(Xor(x / 2, y / 2), y / 2) == x / 2
    requires Xor(y / 2, Xor(x / 2, y / 2)) == x / 2
    ensures Xor(Xor(x, y), y) == x
    ensures Xor(y, Xor(x, y)) == x
  {
    hide *;
    XorStep(x, y);
    XorStep(Xor(x, y), y);
    XorStep(y, Xor(x, y));
  }

  lemma {:induction false} XorBound(x: nat, y: nat, k: nat)
    requires x < Pow2(k) && y < Pow2(k)
    ensures Xor(x, y) < Pow2(k)
  {
    if k > 0 && (x != 0 || y != 0) {
      XorBound(x / 2, y / 2, k - 1);
    }
  }

  lemma XorStep(x: nat, y: nat)
    ensures Xor(x, y) % 2 == (x % 2 + y % 2) % 2
    ensures Xor(x, y) / 2 == Xor(x / 2, y / 2)
  {
  }

  /** Exclusive or does not mix bit positions, so it commutes with truncation. */
  lemma {:induction false} XorLow(x: nat, y: nat, k: nat)
    ensures Xor(x, y) % Pow2(k) == Xor(x % Pow2(k), y % Pow2(k))
  {
    if k > 0 {
      XorLow(x / 2, y / 2, k - 1);
      XorLowStep(x, y, k);
    }
  }

  lemma XorLowStep(x: nat, y: nat, k: nat)
    requires k > 0
    requires Xor(x / 2, y / 2) % Pow2(k - 1) == Xor(x / 2 % Pow2(k - 1), y / 2 % Pow2(k - 1))
    ensures Xor(x, y) % Pow2(k) == Xor(x % Pow2(k), y % Pow2(k))
  {
    hide *;
    XorStep(x, y);
    LowHalves(x, k);
    LowHalves(y, k);
    LowHalves(Xor(x, y), k);
    XorStep(x % Pow2(k), y % Pow2(k));
  }

  /** The low k bits of x are its parity and the low k - 1 bits of x / 2. */
  lemma HalvesMod(x: nat, p: nat)
    requires p >= 1
    ensures x % (2 * p) == x % 2 + 2 * (x / 2 % p)
  {
    var q, r := x / 2 / p, x / 2 % p;
    assert x / 2 == p * q + r;
    assert x == q * (2 * p) + (x % 2 + 2 * r) by {
      assert x == 2 * (x / 2) + x % 2;
      assert q * (2 * p) == 2 * (p * q);
    }
    DivModUnique(x, 2 * p, q, x % 2 + 2 * r);
  }

  lemma LowHalves(x: nat, k: nat)
    requires k > 0
    ensures x % Pow2(k) == x % 2 + 2 * (x / 2 % Pow2(k - 1))
    ensures x % Pow2(k) % 2 == x % 2
    ensures x % Pow2(k) / 2 == x / 2 % Pow2(k - 1)
  {
    assert Pow2(k) == 2 * Pow2(k - 1) && Pow2(k - 1) >= 1;
    hide Pow2;
    HalvesMod(x, Pow2(k - 1));
  }

  lemma {:induction false} AndZero(x: nat)
    ensures And(0, x) == 0
  {
    if x != 0 {
      AndZero(x / 2);
    }
  }

  lemma AndOdd(p: nat, x: nat)
    requires p >= 1
    ensures And(2 * p - 1, x) == x % 2 + 2 * And(p - 1, x / 2)
  {
  }

  /** `x & (2^k - 1)` is the remainder modulo 2^k. */
  lemma {:induction false} AndMask(x: nat, k: nat)
    ensures And(Pow2(k) - 1, x) == x % Pow2(k)
  {
    hide And;
    if k == 0 {
      AndZero(x);
    } else {
      var p := Pow2(k - 1);
      assert Pow2(k) == 2 * p && p >= 1;
      hide Pow2;
      AndMask(x / 2, k - 1);
      HalvesMod(x, p);
      AndOdd(p, x);
    }
  }

  lemma {:induction false} AndBound(x: nat, y: nat)
    ensures And(x, y) <= x
  {
    if x != 0 || y != 0 {
      AndBound(x / 2, y / 2);
    }
  }

  /** Masking with 2^k - 1 shifted left by j clears the low j bits. */
  lemma {:induction false} AndClearLow(x: nat, j: nat, k: nat)
    requires x < Pow2(j) * Pow2(k)
    ensures And(Pow2(j) * (Pow2(k) - 1), x) == x - x % Pow2(j)
  {
    if j == 0 {
      AndMask(x, k);
      DivModUnique(x, Pow2(k), 0, x);
    } else {
      var m := Pow2(j - 1) * (Pow2(k) - 1);
      MulAssoc(2, Pow2(j - 1), Pow2(k) - 1);
      MulAssoc(2, Pow2(j - 1), Pow2(k));
      AndClearLow(x / 2, j - 1, k);
      AndDouble(m, x);
      LowHalves(x, j);
    }
  }

  lemma AndDouble(m: nat, x: nat)
    ensures And(2 * m, x) == 2 * And(m, x / 2)
  {
  }

  lemma WordSizes()
    ensures Pow2(8) == 0x100
    ensures Pow2(32) == 0x1_0000_0000
    ensures Pow2(64) == 0x1_0000_0000_0000_0000
  {
    assert Pow2(4) == 16;
    Pow2Add(4, 4);
    Pow2Add(8, 8);
    Pow2Add(16, 16);
    Pow2Add(32, 32);
  }

  /** Two's complement: the bit pattern of a 64-bit signed integer, and back. */
  function Pattern(x: i64): (n: nat)
    ensures n < 0x1_0000_0000_0000_0000
  {
    if x < 0 then x + 0x1_0000_0000_0000_0000 else x
  }

  function Signed(n: nat): (r: i64)
    requires n < 0x1_0000_0000_0000_0000
  {
    if n >= 0x8000_0000_0000_0000 then n - 0x1_0000_0000_0000_0000 else n
  }

  function Xor64(x: i64, y: i64): (r: i64) {
    WordSizes();
    XorBound(Pattern(x), Pattern(y), 64);
    Signed(Xor(Pattern(x), Pattern(y)))
  }

  function And64(x: i64, y: i64): (r: i64) {
    AndBound(Pattern(x), Pattern(y));
    Signed(And(Pattern(x), Pattern(y)))
  }

  /** The masked exchange: `t = c & (p ^ q); p ^= t; q ^= t` with c == 0 or c == -1. */
  lemma MaskSwap(p: i64, q: i64, c: i64)
    requires c == 0 || c == -1
    ensures Xor64(p, And64(c, Xor64(p, q))) == if c == 0 then p else q
    ensures Xor64(q, And64(c, Xor64(p, q))) == if c == 0 then q else p
  {
    hide Xor, And, Pow2;
    WordSizes();
    var a, b := Pattern(p), Pattern(q);
    XorBound(a, b, 64);
    XorComm(a, b);
    MaskSelect(a, b, c == -1, 64);
    MaskSelect(b, a, c == -1, 64);
  }

  /** `h ^ (mask & (g ^ h))` with a mask of all zeros or all ones picks h or g. */
  lemma MaskSelect(h: nat, g: nat, ones: bool, k: nat)
    requires h < Pow2(k) && g < Pow2(k)
    ensures Xor(h, And(if ones then Pow2(k) - 1 else 0, Xor(g, h))) == if ones then g else h
    ensures And(if ones then Pow2(k) - 1 else 0, Xor(g, h)) == if ones then Xor(g, h) else 0
  {
    if ones {
      XorBound(g, h, k);
      AndMask(Xor(g, h), k);
      DivModUnique(Xor(g, h), Pow2(k), 0, Xor(g, h));
      XorTwice(g, h);
    } else {
      AndZero(Xor(g, h));
      XorZero(h);
    }
  }

  lemma {:induction false} OrBound(x: nat, y: nat, k: nat)
    requires x < Pow2(k) && y < Pow2(k)
    ensures Or(x, y) < Pow2(k)
  {
    if k > 0 && (x != 0 || y != 0) {
      OrBound(x / 2, y / 2, k - 1);
    }
  }

  lemma {:induction false} OrZero(x: nat, y: nat)
    ensures Or(x, y) == 0 <==> x == 0 && y == 0
  {
    if x != 0 || y != 0 {
      OrZero(x / 2, y / 2);
    }
  }

  lemma XorIsZero(x: nat, y: nat)
    ensures Xor(x, y) == 0 <==> x == y
  {
    XorSelf(x);
    XorTwice(x, y);
    XorZero(y);
  }

  /** Operands without a common bit: `|` is addition. */
  lemma {:induction false} OrDisjoint(x: nat, y: nat, k: nat)
    requires y < Pow2(k)
    ensures Or(Pow2(k) * x, y) == Pow2(k) * x + y
    decreases k, x
  {
    if k == 0 {
      assert Pow2(k) * x == x && y == 0;
      if x != 0 {
        OrDisjoint(x / 2, 0, 0);
        assert Pow2(k) * (x / 2) == x / 2;
      }
    } else {
      var p := Pow2(k - 1);
      assert Pow2(k) * x == 2 * (p * x);
      OrDisjoint(x, y / 2, k - 1);
      var z := Pow2(k) * x;
      assert z % 2 == 0 && z / 2 == p * x;
    }
  }
}
