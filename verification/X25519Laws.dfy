/**
  What the pieces of X25519Spec compute, in other terms: the clamped scalar as a
  number, the formulas as polynomials, and the ladder as doubling and adding.
*/
module X25519Laws {
  import opened Arith
  import opened Bits
  import opened Limbs
  import opened Poly1305Spec
  import opened X25519Spec
  import opened CryptoBox
  import opened StreamSpec

  // ---------- the scalar and the coordinate ----------

  lemma SmallPowers()
    ensures Pow2(3) == 8 && Pow2(5) == 32 && Pow2(6) == 64 && Pow2(7) == 128
  {
  }

  /** The lowest byte loses three bits. */
  lemma LowByte(x: u8)
    ensures And(248, x) == x - x % 8
  {
    hide And, Pow2;
    SmallPowers();
    AndClearLow(x, 3, 5);
  }

  /** The highest byte loses bit 7 and has bit 6 set. */
  lemma HighByte(x: u8)
    ensures Or(64, And(127, x)) == 64 + x % 64
  {
    hide And, Or, Pow2;
    SmallPowers();
    AndMask(x, 7);
    OrSixth(x % 128);
    assert x % 128 % 64 == x % 64;
  }

  lemma OrSixth(y: nat)
    requires y < 128
    ensures Or(64, y) == 64 + y % 64
  {
    hide Or, Pow2;
    SmallPowers();
    if y < 64 {
      OrDisjoint(1, y, 6);
    } else {
      OrBoth(1, 1, y - 64, 6);
      OrOnes();
    }
  }

  lemma OrOnes()
    ensures Or(1, 1) == 1
  {
  }

  /** A bit that both operands have counts once. */
  lemma {:induction false} OrBoth(u: nat, v: nat, y: nat, k: nat)
    requires y < Pow2(k)
    ensures Or(Pow2(k) * u, Pow2(k) * v + y) == Pow2(k) * Or(u, v) + y
  {
    hide Or;
    if k == 0 {
      assert Pow2(0) == 1;
    } else {
      assert Pow2(k) == 2 * Pow2(k - 1);
      hide Pow2;
      var p := Pow2(k - 1);
      OrBoth(u, v, y / 2, k - 1);
      OrHalves(2 * p * u, 2 * p * v + y);
      Doubled(p, u, 0);
      Doubled(p, v, y);
      assert 2 * (p * Or(u, v)) == 2 * p * Or(u, v);
    }
  }

  lemma Doubled(p: nat, u: nat, y: nat)
    ensures (2 * p * u + y) / 2 == p * u + y / 2 && (2 * p * u + y) % 2 == y % 2
  {
    assert 2 * p * u == 2 * (p * u);
  }

  lemma OrHalves(x: nat, y: nat)
    ensures Or(x, y) == (if x % 2 == 1 || y % 2 == 1 then 1 else 0) + 2 * Or(x / 2, y / 2)
  {
  }

  lemma TopPower()
    ensures Pow(256, 31) == Pow2(248) && Pow2(254) == 64 * Pow2(248) && Pow2(255) == 128 * Pow2(248)
  {
    hide Pow, Pow2;
    SmallPowers();
    BytePower(31);
    Pow2Add(6, 248);
    Pow2Add(7, 248);
  }

  lemma {:induction false} BytePower(n: nat)
    ensures Pow(256, n) == Pow2(8 * n)
  {
    if n > 0 {
      BytePower(n - 1);
      WordSizes();
      Pow2Add(8, 8 * (n - 1));
    }
  }

  lemma FirstDigit(s: seq<int>)
    requires s != []
    ensures Val(s, 256) == s[0] + 256 * Val(s[1..], 256)
  {
  }

  lemma OneDigit(s: seq<int>)
    requires |s| == 1
    ensures Val(s, 256) == s[0]
  {
  }

  /** A number of 32 bytes by its highest byte, and its remainder modulo 8 by its lowest. */
  lemma ByEnds(k: seq<int>)
    requires |k| == 32 && AreDigits(k, 256)
    ensures Val(k, 256) == Val(k[..31], 256) + k[31] * Pow2(248) && 0 <= Val(k[..31], 256) < Pow2(248)
    ensures Val(k, 256) % 8 == k[0] % 8
  {
    hide Val, Pow, Pow2;
    TopPower();
    ValSplit(k, 31, 256);
    OneDigit(k[31..]);
    DigitsBound(k[..31], 256);
    FirstDigit(k);
    assert Val(k, 256) == k[0] + 8 * (32 * Val(k[1..], 256));
  }

  /** Clamping, as a number: the bits from 254 up are one, and the low three are gone. */
  lemma ScalarIs(k: seq<u8>)
    requires |k| == 32
    ensures var v := Val(k, 256); DecodeScalar(k) == Pow2(254) + v % Pow2(254) - v % 8
  {
    hide And, Or, Pow2, Val;
    LowByte(k[0]);
    HighByte(k[31]);
    var b: seq<int> := k;
    var b1 := b[0 := And(248, k[0])];
    ValUpdate(b, 0, And(248, k[0]), 256);
    ValUpdate(b1, 31, Or(64, And(127, k[31])), 256);
    assert b1[31] == k[31];
    FirstPower();
    TopPower();
    ByEnds(b);
    TopBits(Val(b[..31], 256), k[31], Pow2(248), 64);
    Regrouped(Val(b, 256), Val(b[..31], 256), k[0], k[31], Pow2(248));
  }

  lemma FirstPower()
    ensures Pow(256, 0) == 1
  {
  }

  lemma Regrouped(v: int, low: int, k0: int, k31: int, p: int)
    requires v == low + k31 * p
    ensures v + (k0 - k0 % 8 - k0) * 1 + (64 + k31 % 64 - k31) * p == 64 * p + (low + k31 % 64 * p) - k0 % 8
  {
    assert (64 + k31 % 64 - k31) * p == 64 * p + k31 % 64 * p - k31 * p;
  }

  /** Of a number with a digit on top, the remainder keeps the digit's remainder. */
  lemma TopBits(low: int, top: int, p: int, n: int)
    requires 0 <= low < p && 0 <= top && n > 0
    ensures n * p > 0 && (low + top * p) % (n * p) == low + top % n * p
  {
    var q, r := top / n, top % n;
    MulLower(n, p);
    assert top * p == (n * q + r) * p;
    MulDistr(p, n * q, r);
    assert n * q * p == q * (n * p) by {
      MulAssoc(n, q, p);
      MulAssoc(q, n, p);
    }
    MulBound(r, p, n - 1, p);
    MulDistr(p, n, -1);
    DivModUnique(low + top * p, n * p, q, low + r * p);
  }

  /** So the scalar is a multiple of eight, between 2^254 and 2^255. */
  lemma ScalarRange(k: seq<u8>)
    requires |k| == 32
    ensures DecodeScalar(k) % 8 == 0 && Pow2(254) <= DecodeScalar(k) < Pow2(255)
  {
    hide And, Or, Pow2, Val, DecodeScalar;
    ScalarIs(k);
    TopPower();
    Pow2Add(3, 251);
    EightfoldRest(Val(k, 256), Pow2(251));
  }

  lemma EightfoldRest(v: int, q: int)
    requires q > 0
    ensures Pow2(3) == 8 && (8 * q + v % (8 * q) - v % 8) % 8 == 0
    ensures 8 * q <= 8 * q + v % (8 * q) - v % 8 < 16 * q
  {
    var a, b := v / (8 * q), v % (8 * q);
    assert v == 8 * (q * a) + b;
    assert v % 8 == b % 8;
  }

  /** Scalars that differ only in bits that are clamped are the same scalar. */
  lemma ClampedBitsDoNotMatter(k: seq<u8>, l: seq<u8>, u: seq<u8>)
    requires |k| == 32 && |l| == 32 && |u| == 32
    requires var v, w := Val(k, 256), Val(l, 256); v % Pow2(254) - v % 8 == w % Pow2(254) - w % 8
    ensures X25519(k, u) == X25519(l, u)
  {
    hide Climb, DecodeScalar, DecodeU;
    ScalarIs(k);
    ScalarIs(l);
  }

  lemma Swapped(a: int, b: int)
    ensures a * b == b * a
  {
  }

  /** The coordinate is taken modulo 2^255. */
  lemma CoordinateIs(u: seq<u8>)
    requires |u| == 32
    ensures DecodeU(u) == Val(u, 256) % Pow2(255)
  {
    hide Pow, Pow2, Val;
    var s: seq<int> := u;
    ByEnds(s);
    TopPower();
    ValAppend(s[..31], u[31] % 128, 256);
    TopBits(Val(s[..31], 256), u[31], Pow2(248), 128);
    Swapped(Pow2(248), u[31] % 128);
  }

  /** The base point has the coordinate nine. */
  lemma NineIsNine()
    ensures DecodeU(Nine()) == 9
  {
    hide Pow2, Val, Nine, DecodeU;
    CoordinateIs(Nine());
    TopPower();
    NineVal();
    ManyBits();
    Below(9, Pow2(255));
  }

  lemma Below(x: int, m: int)
    requires 0 <= x < m
    ensures x % m == x
  {
    DivModUnique(x, m, 0, x);
  }

  lemma NineVal()
    ensures Val(Nine(), 256) == 9
  {
    ValZero(Nine()[1..], 256);
  }

  lemma ManyBits()
    ensures Pow2(248) >= 256
  {
    hide Pow2;
    WordSizes();
    Pow2Add(8, 240);
    MulLower(Pow2(240), 256);
  }

  // ---------- the formulas ----------

  /** A point by its projective coordinate on the Montgomery curve with A = 486662. */
  datatype Point = Point(x: int, z: int)

  function Double(p: Point): (r: Point) {
    var x, z := p.x, p.z;
    Point((x * x - z * z) * (x * x - z * z) % P25519, 4 * (x * z) * (x * x + 486662 * (x * z) + z * z) % P25519)
  }

  /** The sum of two points whose difference has the coordinate x1. */
  function DiffAdd(x1: int, p: Point, q: Point): (r: Point) {
    var a, b := p.x * q.x - p.z * q.z, p.x * q.z - p.z * q.x;
    Point(4 * (a * a) % P25519, 4 * (x1 * (b * b)) % P25519)
  }

  lemma FieldOps(x: int, y: int, x': int, y': int)
    requires Cong(x, x', P25519) && Cong(y, y', P25519)
    ensures Cong(FAdd(x, y), x' + y', P25519) && Cong(FSub(x, y), x' - y', P25519) && Cong(FMul(x, y), x' * y', P25519)
  {
    CongAdd(x, x', y, y', P25519);
    CongMul(x, x', y, y', P25519);
    CongMod(x + y, P25519);
    CongMod(x - y, P25519);
    CongMod(x * y, P25519);
  }

  /** The formulas of the ladder double the first point and add the two. */
  lemma FormulasAre(x1: int, s: Ladder)
    ensures var r, p, q := Formulas(x1, s), Point(s.x2, s.z2), Point(s.x3, s.z3);
            && Point(r.x2, r.z2) == Double(p) && Point(r.x3, r.z3) == DiffAdd(x1, p, q) && r.swap == s.swap
  {
    hide FAdd, FSub, FMul, Cong;
    var x2, z2, x3, z3 := s.x2, s.z2, s.x3, s.z3;
    CongSelf(x2);
    CongSelf(z2);
    CongSelf(x3);
    CongSelf(z3);
    CongSelf(x1);
    CongSelf(121665);
    FieldOps(x2, z2, x2, z2);
    FieldOps(x3, z3, x3, z3);
    // doubling
    var A, B := FAdd(x2, z2), FSub(x2, z2);
    var AA, BB := FMul(A, A), FMul(B, B);
    var E := FSub(AA, BB);
    var a, b, u := (x2 + z2) * (x2 + z2), (x2 - z2) * (x2 - z2), x2 * z2;
    FieldOps(A, A, x2 + z2, x2 + z2);
    FieldOps(B, B, x2 - z2, x2 - z2);
    FieldOps(AA, BB, a, b);
    Squares(x2, z2);
    FieldOps(121665, E, 121665, 4 * u);
    FieldOps(AA, FMul(121665, E), a, 121665 * (4 * u));
    FieldOps(E, FAdd(AA, FMul(121665, E)), 4 * u, a + 121665 * (4 * u));
    Reduced(AA, BB, a * b);
    Reduced(E, FAdd(AA, FMul(121665, E)), 4 * u * (a + 121665 * (4 * u)));
    // adding
    var DA, CB := FMul(FSub(x3, z3), A), FMul(FAdd(x3, z3), B);
    var sum, diff := FAdd(DA, CB), FSub(DA, CB);
    var g, h := x2 * x3 - z2 * z3, x2 * z3 - z2 * x3;
    FieldOps(FSub(x3, z3), A, x3 - z3, x2 + z2);
    FieldOps(FAdd(x3, z3), B, x3 + z3, x2 - z2);
    FieldOps(DA, CB, (x3 - z3) * (x2 + z2), (x3 + z3) * (x2 - z2));
    Crosses(x2, z2, x3, z3);
    FieldOps(sum, sum, 2 * g, 2 * g);
    FieldOps(diff, diff, -2 * h, -2 * h);
    FieldOps(x1, FMul(diff, diff), x1, -2 * h * (-2 * h));
    Fours(g, h, x1);
    Reduced(sum, sum, 4 * (g * g));
    Reduced(x1, FMul(diff, diff), 4 * (x1 * (h * h)));
  }

  lemma CongSelf(x: int)
    ensures Cong(x, x, P25519)
  {
  }

  lemma Reduced(x: int, y: int, n: int)
    requires Cong(FMul(x, y), n, P25519)
    ensures FMul(x, y) == n % P25519
  {
    Below(FMul(x, y), P25519);
  }

  lemma Squares(x: int, z: int)
    ensures (x + z) * (x + z) - (x - z) * (x - z) == 4 * (x * z)
    ensures ((x + z) * (x + z)) * ((x - z) * (x - z)) == (x * x - z * z) * (x * x - z * z)
    ensures (x + z) * (x + z) + 121665 * (4 * (x * z)) == x * x + 486662 * (x * z) + z * z
  {
    assert (x + z) * (x + z) == x * x + 2 * (x * z) + z * z;
    assert (x - z) * (x - z) == x * x - 2 * (x * z) + z * z;
    assert (x + z) * (x - z) == x * x - z * z;
    MulAssoc(x + z, x + z, (x - z) * (x - z));
    MulAssoc(x + z, x - z, x - z);
    MulAssoc(x + z, x - z, (x + z) * (x - z));
    MulAssoc(x - z, x + z, x - z);
  }

  lemma Crosses(x2: int, z2: int, x3: int, z3: int)
    ensures (x3 - z3) * (x2 + z2) + (x3 + z3) * (x2 - z2) == 2 * (x2 * x3 - z2 * z3)
    ensures (x3 - z3) * (x2 + z2) - (x3 + z3) * (x2 - z2) == -2 * (x2 * z3 - z2 * x3)
  {
  }

  lemma Fours(a: int, b: int, x1: int)
    ensures 2 * a * (2 * a) == 4 * (a * a) && x1 * (-2 * b * (-2 * b)) == 4 * (x1 * (b * b))
  {
    assert -2 * b * (-2 * b) == 4 * (b * b);
  }

  // ---------- the ladder ----------

  /** The n-th multiple of the point x1 and the one after it, by doubling and adding. */
  function Multiples(x1: int, n: nat): (r: (Point, Point)) {
    if n == 0 then (Point(1, 0), Point(x1, 1))
    else
      var h := Multiples(x1, n / 2);
      if n % 2 == 0 then (Double(h.0), DiffAdd(x1, h.0, h.1)) else (DiffAdd(x1, h.0, h.1), Double(h.1))
  }

  lemma DiffAddComm(x1: int, p: Point, q: Point)
    ensures DiffAdd(x1, p, q) == DiffAdd(x1, q, p)
  {
    var b, c := p.x * q.z - p.z * q.x, q.x * p.z - q.z * p.x;
    assert c == -b;
    assert b * b == c * c;
  }

  ghost predicate Holds(s: Ladder, r: (Point, Point)) {
    s == Ladder(r.0.x, r.0.z, r.1.x, r.1.z, false)
  }

  /** The bits from t up, as a number. */
  function Above(k: nat, t: nat): (r: nat) {
    DivNat(k, Pow2(t));
    k / Pow2(t)
  }

  lemma AboveStep(k: nat, t: nat)
    ensures Above(k, t) / 2 == Above(k, t + 1) && (Above(k, t) % 2 == 1 <==> Bit(k, t))
  {
    assert Pow2(t + 1) == 2 * Pow2(t);
    hide Pow2;
    Swapped(2, Pow2(t));
    ScalarMult.DivDiv(k, Pow2(t), 2);
  }

  lemma AboveTop(k: nat)
    requires k < Pow2(255)
    ensures Above(k, 255) == 0 && Above(k, 0) == k
  {
    assert Pow2(0) == 1;
    hide Pow2;
    DivModUnique(k, Pow2(255), 0, k);
  }

  lemma {:induction false} AboveSome(k: nat, t: nat, n: nat)
    requires t <= n && Pow2(n) <= k
    ensures Above(k, t) > 0
    decreases n - t
  {
    hide Pow2;
    if t == n {
      QuotientPositive(k, Pow2(n));
    } else {
      AboveSome(k, t + 1, n);
      AboveStep(k, t);
    }
  }

  lemma QuotientPositive(k: nat, p: nat)
    requires p > 0 && p <= k
    ensures k / p > 0
  {
    assert k == p * (k / p) + k % p;
  }

  /**
    After the bits from t up, the ladder holds the multiple that these bits spell,
    and the next one. Clamped scalars have bit 254 set.
  */
  lemma {:induction false} LadderIs(k: nat, x1: int, t: nat)
    requires t <= 255 && Pow2(254) <= k < Pow2(255)
    ensures Holds(ScalarMult.Unswapped(Climb(k, x1, t)), Multiples(x1, Above(k, t)))
    decreases 255 - t
  {
    hide Formulas, Double, DiffAdd, Pow2, Bit, Climb, Above;
    if t == 255 {
      AboveTop(k);
      AtTheTop(k, x1);
    } else {
      var h, bit := Multiples(x1, Above(k, t + 1)), Bit(k, t);
      LadderIs(k, x1, t + 1);
      ScalarMult.ClimbStep(k, x1, t, bit);
      AboveStep(k, t);
      AboveSome(k, t, 254);
      var s := ScalarMult.Unswapped(Climb(k, x1, t + 1));
      FormulasAre(x1, CondSwap(s, bit));
      DiffAddComm(x1, h.0, h.1);
    }
  }

  lemma AtTheTop(k: nat, x1: int)
    ensures Holds(ScalarMult.Unswapped(Climb(k, x1, 255)), Multiples(x1, 0))
  {
    hide Formulas, Double, DiffAdd;
  }

  /**
    X25519 by doubling and adding: the clamped scalar's multiple of the point, with
    the coordinate divided by Fermat's power.
  */
  lemma X25519Is(k: seq<u8>, u: seq<u8>)
    requires |k| == 32 && |u| == 32
    ensures Pow2(254) <= DecodeScalar(k)
    ensures var p := Multiples(DecodeU(u) % P25519, DecodeScalar(k)).0;
            X25519(k, u) == LeBytes(FMul(p.x, FPow(p.z, P25519 - 2)), 32)
  {
    hide DecodeScalar, DecodeU, Climb, Multiples, Pow2, LeBytes, FPow;
    ScalarRange(k);
    AboveTop(DecodeScalar(k));
    LadderIs(DecodeScalar(k), DecodeU(u) % P25519, 0);
    assert CondSwap(Climb(DecodeScalar(k), DecodeU(u) % P25519, 0),
                    Climb(DecodeScalar(k), DecodeU(u) % P25519, 0).swap).x2
        == ScalarMult.Unswapped(Climb(DecodeScalar(k), DecodeU(u) % P25519, 0)).x2;
  }
}
