/** `crypto_scalarmult` of tweetnacl.c against X25519. */
module ScalarMult {
  import opened Arith
  import opened Bits
  import opened Limbs
  import opened X25519Spec
  import opened Field25519

  ghost predicate Small(s: seq<int>) {
    |s| == 16 && Within(s, -0x400_0000, 0x400_0000)
  }

  /** The six working registers, the base point and the curve constant are different arrays. */
  ghost predicate Registers(a: array<i64>, b: array<i64>, c: array<i64>, d: array<i64>,
                            e: array<i64>, f: array<i64>, x: array<i64>, k: array<i64>)
  {
    && IsGf(a) && IsGf(b) && IsGf(c) && IsGf(d) && IsGf(e) && IsGf(f) && IsGf(x) && IsGf(k)
    && a != b && a != c && a != d && a != e && a != f && a != x && a != k
    && b != c && b != d && b != e && b != f && b != x && b != k
    && c != d && c != e && c != f && c != x && c != k
    && d != e && d != f && d != x && d != k
    && e != f && e != x && e != k
    && f != x && f != k
  }

  ghost function StateOf(a: seq<int>, c: seq<int>, b: seq<int>, d: seq<int>): (r: Ladder) {
    Ladder(Fe(a), Fe(c), Fe(b), Fe(d), false)
  }

  /** First half of a ladder step: a and c become CB and DA, d and f become AA and BB. */
  method HalfStep1(a: array<i64>, b: array<i64>, c: array<i64>, d: array<i64>,
                   e: array<i64>, f: array<i64>, ghost x: array<i64>, ghost k: array<i64>)
    requires Registers(a, b, c, d, e, f, x, k)
    requires Tight(a[..]) && Tight(b[..]) && Tight(c[..]) && Tight(d[..])
    modifies a, b, c, d, e, f
    ensures Tight(a[..]) && Tight(c[..]) && Tight(d[..]) && Tight(f[..])
    ensures var A := FAdd(old(Fe(a[..])), old(Fe(c[..]))); var B := FSub(old(Fe(a[..])), old(Fe(c[..])));
            var C := FAdd(old(Fe(b[..])), old(Fe(d[..]))); var D := FSub(old(Fe(b[..])), old(Fe(d[..])));
            && Fe(d[..]) == FMul(A, A) && Fe(f[..]) == FMul(B, B)
            && Fe(a[..]) == FMul(C, B) && Fe(c[..]) == FMul(D, A)
  {
    AddGf(e, a, c);
    SubGf(a, a, c);
    AddGf(c, b, d);
    SubGf(b, b, d);
    SquareGf(d, e);
    SquareGf(f, a);
    MulGf(a, c, a);
    MulGf(c, b, e);
  }

  /** Second half: from CB, DA, AA and BB to the new pair of points. */
  method HalfStep2(a: array<i64>, b: array<i64>, c: array<i64>, d: array<i64>,
                   e: array<i64>, f: array<i64>, x: array<i64>, k: array<i64>)
    requires Registers(a, b, c, d, e, f, x, k)
    requires Tight(a[..]) && Tight(c[..]) && Tight(d[..]) && Tight(f[..])
    requires Small(x[..]) && Small(k[..])
    modifies a, b, c, d, e, f
    ensures Tight(a[..]) && Tight(b[..]) && Tight(c[..]) && Tight(d[..])
    ensures var CB := old(Fe(a[..])); var DA := old(Fe(c[..])); var AA := old(Fe(d[..])); var BB := old(Fe(f[..]));
            var E := FSub(AA, BB); var diff := FSub(CB, DA); var sum := FAdd(CB, DA);
            && Fe(a[..]) == FMul(AA, BB)
            && Fe(c[..]) == FMul(E, FAdd(FMul(E, Fe(k[..])), AA))
            && Fe(b[..]) == FMul(sum, sum)
            && Fe(d[..]) == FMul(FMul(diff, diff), Fe(x[..]))
  {
    hide FAdd, FSub, FMul, Fe;
    AddGf(e, a, c);
    SubGf(a, a, c);
    SquareGf(b, a);
    SubGf(c, d, f);
    MulGf(a, c, k);
    AddGf(a, a, d);
    MulGf(c, c, a);
    MulGf(a, d, f);
    MulGf(d, b, x);
    SquareGf(b, e);
  }

  lemma FieldLaws(x: int, y: int)
    ensures FAdd(x, y) == FAdd(y, x)
    ensures FMul(x, y) == FMul(y, x)
    ensures FMul(FSub(x, y), FSub(x, y)) == FMul(FSub(y, x), FSub(y, x))
  {
    assert x * y == y * x;
    var d := x - y;
    CongMod(d, P25519);
    CongMod(-d, P25519);
    CongMul(d % P25519, d, d % P25519, d, P25519);
    CongMul(-d % P25519, -d, -d % P25519, -d, P25519);
    assert d * d == (-d) * (-d);
  }

  /** The order in which tweetnacl.c multiplies and subtracts does not matter. */
  lemma FormulasAgree(x1: int, s: Ladder, t: Ladder)
    requires var A := FAdd(s.x2, s.z2); var B := FSub(s.x2, s.z2);
             var C := FAdd(s.x3, s.z3); var D := FSub(s.x3, s.z3);
             var AA := FMul(A, A); var BB := FMul(B, B); var CB := FMul(C, B); var DA := FMul(D, A);
             var E := FSub(AA, BB); var diff := FSub(CB, DA); var sum := FAdd(CB, DA);
             t == Ladder(FMul(AA, BB), FMul(E, FAdd(FMul(E, 121665), AA)),
                         FMul(sum, sum), FMul(FMul(diff, diff), x1), s.swap)
    ensures t == Formulas(x1, s)
  {
    var A := FAdd(s.x2, s.z2); var B := FSub(s.x2, s.z2);
    var C := FAdd(s.x3, s.z3); var D := FSub(s.x3, s.z3);
    var AA := FMul(A, A); var BB := FMul(B, B); var CB := FMul(C, B); var DA := FMul(D, A);
    var E := FSub(AA, BB);
    FieldLaws(CB, DA);
    FieldLaws(E, 121665);
    FieldLaws(FMul(121665, E), AA);
    FieldLaws(x1, FMul(FSub(DA, CB), FSub(DA, CB)));
  }

  method LadderStep(a: array<i64>, b: array<i64>, c: array<i64>, d: array<i64>,
                    e: array<i64>, f: array<i64>, x: array<i64>, k: array<i64>, r: int)
    requires Registers(a, b, c, d, e, f, x, k) && 0 <= r <= 1
    requires Tight(a[..]) && Tight(b[..]) && Tight(c[..]) && Tight(d[..])
    requires Small(x[..]) && Small(k[..]) && Fe(k[..]) == 121665
    modifies a, b, c, d, e, f
    ensures Tight(a[..]) && Tight(b[..]) && Tight(c[..]) && Tight(d[..])
    ensures StateOf(a[..], c[..], b[..], d[..])
         == CondSwap(Formulas(Fe(x[..]), CondSwap(old(StateOf(a[..], c[..], b[..], d[..])), r == 1)), r == 1)
  {
    Sel25519(a, b, r);
    Sel25519(c, d, r);
    ghost var s := StateOf(a[..], c[..], b[..], d[..]);
    HalfStep1(a, b, c, d, e, f, x, k);
    HalfStep2(a, b, c, d, e, f, x, k);
    FormulasAgree(Fe(x[..]), s, StateOf(a[..], c[..], b[..], d[..]));
    Sel25519(a, b, r);
    Sel25519(c, d, r);
  }

  ghost function Unswapped(s: Ladder): (r: Ladder) {
    CondSwap(s, s.swap).(swap := false)
  }

  /** Swapping before and after each step does what one lazy swap per step does. */
  lemma EagerStep(x1: int, s: Ladder, bit: bool)
    ensures CondSwap(Formulas(x1, CondSwap(Unswapped(s), bit)), bit)
         == Unswapped(Formulas(x1, CondSwap(s, s.swap != bit).(swap := bit)))
  {
    FormulasSwap(x1, CondSwap(s, s.swap != bit), bit);
    assert CondSwap(Unswapped(s), bit) == CondSwap(s, s.swap != bit).(swap := false);
    FormulasSwap(x1, CondSwap(s, s.swap != bit), false);
  }

  lemma ClimbStep(n: int, x1: int, t: nat, bit: bool)
    requires t < 255 && bit == Bit(n, t)
    ensures Unswapped(Climb(n, x1, t))
         == CondSwap(Formulas(x1, CondSwap(Unswapped(Climb(n, x1, t + 1)), bit)), bit)
  {
    EagerStep(x1, Climb(n, x1, t + 1), bit);
  }

  lemma FormulasSwap(x1: int, s: Ladder, b: bool)
    ensures Formulas(x1, s.(swap := b)) == Formulas(x1, s).(swap := b)
  {
  }

  /** Bit i of a little-endian number is bit i % 8 of byte i / 8. */
  lemma {:induction false} BitOfBytes(s: seq<int>, i: nat)
    requires AreDigits(s, 256) && i < 8 * |s|
    ensures Val(s, 256) / Pow2(i) % 2 == s[i / 8] / Pow2(i % 8) % 2
  {
    hide Pow2;
    assert Val(s, 256) == s[0] + 256 * Val(s[1..], 256);
    hide Val;
    if i < 8 {
      assert i / 8 == 0 && i % 8 == i;
      BitOfByte(s[0], Val(s[1..], 256), i);
    } else {
      assert (i - 8) / 8 == i / 8 - 1 && (i - 8) % 8 == i % 8;
      assert s[1..][(i - 8) / 8] == s[i / 8];
      BitOfBytes(s[1..], i - 8);
      SkipByte(s[0], Val(s[1..], 256), i);
    }
  }

  lemma SkipByte(b: int, v: int, i: nat)
    requires 0 <= b < 256 && i >= 8
    ensures (b + 256 * v) / Pow2(i) == v / Pow2(i - 8)
  {
    hide *;
    WordSizes();
    Pow2Add(8, i - 8);
    DivModUnique(b + 256 * v, 256, v, b);
    DivDiv(b + 256 * v, 256, Pow2(i - 8));
  }

  lemma BitOfByte(b: int, v: int, i: nat)
    requires i < 8
    ensures (b + 256 * v) / Pow2(i) % 2 == b / Pow2(i) % 2
  {
    var p, u := Pow2(i), Pow2(7 - i) * v;
    Pow2Add(i, 7 - i);
    assert Pow2(7) == 128;
    MulAssoc(p, Pow2(7 - i), v);
    AboveBit(b, u, p);
  }

  lemma AboveBit(b: int, u: int, p: int)
    requires p > 0
    ensures (b + 2 * (p * u)) / p % 2 == b / p % 2
  {
    var q := b / p;
    MulDistr(p, q, 2 * u);
    DivModUnique(b + 2 * (p * u), p, q + 2 * u, b % p);
  }

  lemma DivDiv(x: int, m: int, n: int)
    requires m > 0 && n > 0
    ensures m * n > 0
    ensures x / (m * n) == x / m / n
  {
    MulLower(m, n);
    var y := x / m;
    NestedQuotients(m, n, y / n, y % n, y, x, x % m);
    MulBound(m, y % n, m, n - 1);
    MulDistr(m, n, -1);
    DivModUnique(x, m * n, y / n, m * (y % n) + x % m);
  }

  lemma NestedQuotients(m: int, n: int, q: int, r: int, y: int, x: int, s: int)
    requires y == n * q + r && x == m * y + s
    ensures x == q * (m * n) + (m * r + s)
  {
    MulDistr(m, n * q, r);
    MulAssoc(m, n, q);
  }

  method ClampScalar(n: array<u8>) returns (z: array<u8>)
    requires n.Length == 32
    ensures fresh(z) && z.Length == 32
    ensures z[..] == ScalarBytes(n[..])
  {
    z := new u8[32];
    var i := 0;
    while i < 31
      invariant 0 <= i <= 31
      invariant forall k :: 0 <= k < i ==> z[k] == n[k]
    {
      z[i] := n[i];
      i := i + 1;
    }
    AndBound(127, n[31]);
    AndBound(248, n[0]);
    WordSizes();
    OrBound(64, And(127, n[31]), 8);
    z[31] := Or(64, And(127, n[31]));
    z[0] := And(248, z[0]);
  }

  /** The loop over the 255 scalar bits. */
  method Climbing(a: array<i64>, b: array<i64>, c: array<i64>, d: array<i64>,
                  e: array<i64>, f: array<i64>, x: array<i64>, k: array<i64>, z: array<u8>)
    requires Registers(a, b, c, d, e, f, x, k) && z.Length == 32
    requires Tight(a[..]) && Tight(b[..]) && Tight(c[..]) && Tight(d[..])
    requires Small(x[..]) && Small(k[..]) && Fe(k[..]) == 121665
    requires StateOf(a[..], c[..], b[..], d[..]) == Ladder(1, 0, Fe(x[..]), 1, false)
    modifies a, b, c, d, e, f
    ensures Tight(a[..]) && Tight(c[..])
    ensures var s := Unswapped(Climb(Val(z[..], 256), Fe(x[..]), 0));
            Fe(a[..]) == s.x2 && Fe(c[..]) == s.z2
  {
    hide Formulas;
    ghost var n, x1 := Val(z[..], 256), Fe(x[..]);
    var i := 254;
    while i >= 0
      invariant -1 <= i <= 254
      invariant Tight(a[..]) && Tight(b[..]) && Tight(c[..]) && Tight(d[..])
      invariant x[..] == old(x[..]) && k[..] == old(k[..])
      invariant StateOf(a[..], c[..], b[..], d[..]) == Unswapped(Climb(n, x1, i + 1))
    {
      ClimbBit(a, b, c, d, e, f, x, k, z, i);
      i := i - 1;
    }
  }

  method ClimbBit(a: array<i64>, b: array<i64>, c: array<i64>, d: array<i64>,
                  e: array<i64>, f: array<i64>, x: array<i64>, k: array<i64>, z: array<u8>, i: nat)
    requires Registers(a, b, c, d, e, f, x, k) && z.Length == 32 && i < 255
    requires Tight(a[..]) && Tight(b[..]) && Tight(c[..]) && Tight(d[..])
    requires Small(x[..]) && Small(k[..]) && Fe(k[..]) == 121665
    requires StateOf(a[..], c[..], b[..], d[..]) == Unswapped(Climb(Val(z[..], 256), Fe(x[..]), i + 1))
    modifies a, b, c, d, e, f
    ensures Tight(a[..]) && Tight(b[..]) && Tight(c[..]) && Tight(d[..])
    ensures StateOf(a[..], c[..], b[..], d[..]) == Unswapped(Climb(Val(z[..], 256), Fe(x[..]), i))
  {
    var r := z[i / 8] / Pow2(i % 8) % 2;
    BitOfBytes(z[..], i);
    assert z[i / 8] == z[..][i / 8];
    ClimbStep(Val(z[..], 256), Fe(x[..]), i, r == 1);
    LadderStep(a, b, c, d, e, f, x, k, r);
  }

  lemma SmallConstants(one: seq<int>, zero: seq<int>, k: seq<int>)
    requires |one| == 16 && |zero| == 16 && |k| == 16
    requires forall i :: 0 <= i < 16 ==> one[i] == (if i == 0 then 1 else 0) && zero[i] == 0
    requires forall i :: 0 <= i < 16 ==> k[i] == if i == 0 then 0xDB41 else if i == 1 then 1 else 0
    ensures Fe(one) == 1 && Fe(zero) == 0 && Fe(k) == 121665
  {
    ValZero(zero, 65536);
    ValZero(one[1..], 65536);
    ValZero(k[1..][1..], 65536);
    assert Val(k, 65536) == k[0] + 65536 * (k[1] + 65536 * Val(k[1..][1..], 65536));
  }

  method CryptoScalarmult(q: array<u8>, n: array<u8>, p: array<u8>)
    requires q.Length == 32 && n.Length == 32 && p.Length == 32
    modifies q
    ensures q[..] == X25519(old(n[..]), old(p[..]))
  {
    var z := ClampScalar(n);
    var x := new i64[16];
    Unpack25519(x, p);
    var a, c := Ladder25519(x, z);
    Inv25519(c, c);
    MulGf(a, a, c);
    Pack25519(q, a);
  }

  /** The initial registers and the ladder: a and c end as the projective result. */
  method Ladder25519(x: array<i64>, z: array<u8>) returns (a: array<i64>, c: array<i64>)
    requires IsGf(x) && AreDigits(x[..], 65536) && z.Length == 32
    ensures fresh(a) && fresh(c) && a != c && IsGf(a) && IsGf(c) && Tight(a[..]) && Tight(c[..])
    ensures var s := Unswapped(Climb(Val(z[..], 256), Fe(x[..]), 0));
            Fe(a[..]) == s.x2 && Fe(c[..]) == s.z2
  {
    a := new i64[16](i => if i == 0 then 1 else 0);
    var b := new i64[16];
    c := new i64[16](_ => 0);
    var d := new i64[16](i => if i == 0 then 1 else 0);
    var e := new i64[16];
    var f := new i64[16];
    var k := new i64[16](i => if i == 0 then 0xDB41 else if i == 1 then 1 else 0);
    SetGf(b, x);
    SmallConstants(a[..], c[..], k[..]);
    assert d[..] == a[..];
    Climbing(a, b, c, d, e, f, x, k, z);
  }
}