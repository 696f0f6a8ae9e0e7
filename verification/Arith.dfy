/** Powers, and residues modulo a positive number. */
module Arith {

  function Pow(b: int, e: nat): (r: int) {
    if e == 0 then 1 else b * Pow(b, e - 1)
  }

  function Pow2(e: nat): (r: nat)
    ensures r > 0
  {
    if e == 0 then 1 else 2 * Pow2(e - 1)
  }

  lemma {:induction false} PowAdd(b: int, m: nat, n: nat)
    ensures Pow(b, m + n) == Pow(b, m) * Pow(b, n)
  {
    if m > 0 {
      PowAdd(b, m - 1, n);
      MulAssoc(b, Pow(b, m - 1), Pow(b, n));
    }
  }

  lemma {:induction false} Pow2Add(m: nat, n: nat)
    ensures Pow2(m + n) == Pow2(m) * Pow2(n)
  {
    if m > 0 {
      Pow2Add(m - 1, n);
      MulAssoc(2, Pow2(m - 1), Pow2(n));
    }
  }

  /** (b^m)^2 == b^(2m) */
  lemma PowSquare(b: int, m: nat)
    ensures Pow(b, m) * Pow(b, m) == Pow(b, 2 * m)
  {
    PowAdd(b, m, m);
  }

  /** The weights at which the limbs of the two prime fields wrap around. */
  lemma LimbWeights()
    ensures Pow(256, 16) == 0x1_0000_0000_0000_0000_0000_0000_0000_0000
    ensures Pow(256, 17) == 0x100_0000_0000_0000_0000_0000_0000_0000_0000
    ensures Pow(65536, 16) == 0x1_0000_0000_0000_0000_0000_0000_0000_0000_0000_0000_0000_0000_0000_0000_0000_0000
  {
    assert Pow(256, 2) == 0x1_0000 && Pow(65536, 2) == 0x1_0000_0000;
    PowSquare(256, 2);
    PowSquare(256, 4);
    PowSquare(256, 8);
    PowSquare(65536, 2);
    PowSquare(65536, 4);
    PowSquare(65536, 8);
  }

  lemma MulAssoc(x: int, y: int, z: int)
    ensures x * y * z == x * (y * z)
  {
  }

  lemma MulDistr(x: int, y: int, z: int)
    ensures x * (y + z) == x * y + x * z
    ensures (y + z) * x == y * x + z * x
  {
  }

  /** The quotient and remainder are the only ones there are. */
  lemma DivModUnique(x: int, m: int, q: int, r: int)
    requires 0 <= r < m
    requires x == q * m + r
    ensures x / m == q && x % m == r
  {
    var q', r' := x / m, x % m;
    assert x == q' * m + r' by {
      assert x == m * q' + r';
    }
    assert (q - q') * m == r' - r by {
      MulDistr(m, q, -q');
    }
    if q > q' {
      MulLower(q - q', m);
    } else if q < q' {
      MulLower(q' - q, m);
      MulDistr(m, q', -q);
      MulDistr(m, q, -q');
    }
  }

  lemma MulLower(k: int, m: int)
    requires k >= 1 && m >= 0
    ensures k * m >= m
  {
  }

  lemma MulBound(a: int, b: int, la: int, lb: int)
    requires 0 <= a <= la && 0 <= b <= lb
    ensures 0 <= a * b <= la * lb
  {
    assert a * b <= la * b;
    assert la * b <= la * lb;
  }

  ghost predicate Cong(x: int, y: int, m: int)
    requires m > 0
  {
    x % m == y % m
  }

  lemma CongIntro(x: int, y: int, k: int, m: int)
    requires m > 0
    requires x == y + k * m
    ensures Cong(x, y, m)
  {
    var q := y / m;
    assert x == (q + k) * m + y % m by {
      assert y == m * q + y % m;
      MulDistr(m, q, k);
    }
    DivModUnique(x, m, q + k, y % m);
  }

  lemma CongElim(x: int, y: int, m: int) returns (k: int)
    requires m > 0
    requires Cong(x, y, m)
    ensures x == y + k * m
  {
    k := x / m - y / m;
    assert x == m * (x / m) + x % m;
    assert y == m * (y / m) + y % m;
    MulDistr(m, x / m, -(y / m));
  }

  lemma CongMod(x: int, m: int)
    requires m > 0
    ensures 0 <= x % m < m
    ensures Cong(x % m, x, m)
  {
    DivModUnique(x % m, m, 0, x % m);
  }

  lemma CongAdd(x: int, x': int, y: int, y': int, m: int)
    requires m > 0
    requires Cong(x, x', m) && Cong(y, y', m)
    ensures Cong(x + y, x' + y', m)
    ensures Cong(x - y, x' - y', m)
  {
    var k := CongElim(x, x', m);
    var l := CongElim(y, y', m);
    MulDistr(m, k, l);
    MulDistr(m, k, -l);
    CongIntro(x + y, x' + y', k + l, m);
    CongIntro(x - y, x' - y', k - l, m);
  }

  lemma MulShift(x: int, k: int, m: int, y: int)
    ensures (x + k * m) * y == x * y + (k * y) * m
  {
    MulDistr(y, x, k * m);
    assert k * m * y == k * y * m by {
      MulAssoc(k, m, y);
      MulAssoc(k, y, m);
      assert m * y == y * m;
    }
  }

  lemma CongMul(x: int, x': int, y: int, y': int, m: int)
    requires m > 0
    requires Cong(x, x', m) && Cong(y, y', m)
    ensures Cong(x * y, x' * y', m)
  {
    var k := CongElim(x, x', m);
    var l := CongElim(y, y', m);
    MulShift(x', k, m, y);
    MulShift(y', l, m, x');
    MulDistr(m, k * y, l * x');
    CongIntro(x * y, x' * y', k * y + l * x', m);
  }

  /** Congruence modulo a multiple of m is congruence modulo m. */
  lemma ModOfMod(x: int, m: int, k: int)
    requires m > 0 && k > 0
    ensures k * m > 0
    ensures x % (k * m) % m == x % m
  {
    MulLower(k, m);
    var n := k * m;
    var q := x / n;
    assert x == n * q + x % n;
    assert n * q == (k * q) * m;
    CongIntro(x, x % n, k * q, m);
  }

  lemma QuotientBound(x: int, p: int, q: int)
    requires p > 0 && q > 0 && 0 <= x < p * q
    ensures 0 <= x / q < p
  {
    var y := x / q;
    assert x == q * y + x % q;
    if y >= p {
      MulBound(q, p, q, y);
    } else if y < 0 {
      MulLower(-y, q);
    }
  }

  lemma DivNat(x: int, m: int)
    requires x >= 0 && m > 0
    ensures x / m >= 0
  {
  }
}
