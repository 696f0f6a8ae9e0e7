/**
  The field arithmetic of tweetnacl.c: sixteen signed 64-bit limbs of weight
  2^16, carried lazily. `Fe` is the element of GF(2^255 - 19) they stand for.
*/
module Field25519 {
  import opened Arith
  import opened Bits
  import opened Limbs
  import opened Poly1305Spec
  import opened X25519Spec

  ghost function Fe(s: seq<int>): (r: int)
    ensures 0 <= r < P25519
  {
    Val(s, 65536) % P25519
  }

  ghost predicate IsGf(a: array<i64>) {
    a.Length == 16
  }

  /** What a multiplication leaves: digits, except that the lowest limb may be off by 38. */
  ghost predicate Tight(s: seq<int>) {
    |s| == 16 && -38 <= s[0] <= 65573 && forall i :: 1 <= i < 16 ==> 0 <= s[i] <= 65535
  }

  // ---------- carry passes ----------

  /** `car25519` on values: a carry pass whose last carry comes back into limb 0 times 38. */
  ghost function Carried(s: seq<int>): (r: seq<int>)
    requires |s| == 16
    ensures |r| == 16
  {
    var d := Digits(s, 0, 65536);
    d[0 := d[0] + 38 * CarryOut(s, 0, 65536)]
  }

  lemma FeCong(s: seq<int>, t: seq<int>, k: int)
    requires Val(s, 65536) == Val(t, 65536) + k * P25519
    ensures Fe(s) == Fe(t)
  {
    CongIntro(Val(s, 65536), Val(t, 65536), k, P25519);
  }

  /** 2^256 == 2p + 38, so a carry pass changes the number by a multiple of p. */
  lemma CarriedVal(s: seq<int>)
    requires |s| == 16
    ensures Val(Carried(s), 65536) == Val(s, 65536) + (-2 * CarryOut(s, 0, 65536)) * P25519
    ensures Fe(Carried(s)) == Fe(s)
  {
    hide *;
    var d, c := Digits(s, 0, 65536), CarryOut(s, 0, 65536);
    CarriedSum(s);
    DigitsVal(s, 0, 65536);
    WrapAround(Val(d, 65536), Val(s, 65536), c);
    FeCong(Carried(s), s, -2 * c);
  }

  lemma CarriedSum(s: seq<int>)
    requires |s| == 16
    ensures Val(Carried(s), 65536) == Val(Digits(s, 0, 65536), 65536) + 38 * CarryOut(s, 0, 65536)
  {
    var d, c := Digits(s, 0, 65536), CarryOut(s, 0, 65536);
    ValUpdateLow(d, d[0] + 38 * c, 65536);
  }

  lemma WrapAround(d: int, v: int, c: int)
    requires d + Pow(65536, 16) * c == v
    ensures d + 38 * c == v + (-2 * c) * P25519
  {
    LimbWeights();
    assert Pow(65536, 16) == 2 * P25519 + 38;
    MulDistr(c, 2 * P25519, 38);
  }

  /** A number with limbs of size at most b is less than 2b times the top weight. */
  lemma {:induction false} ValWithin(s: seq<int>, lo: int, hi: int)
    requires Within(s, lo, hi) && lo <= 0 <= hi
    ensures lo * (Pow(65536, |s|) - 1) <= 65535 * Val(s, 65536) <= hi * (Pow(65536, |s|) - 1)
  {
    if s != [] {
      ValWithin(s[1..], lo, hi);
      WithinStep(s[0], Val(s[1..], 65536), Pow(65536, |s| - 1), lo, hi);
    }
  }

  lemma WithinStep(d: int, v: int, p: int, lo: int, hi: int)
    requires lo <= d <= hi
    requires lo * (p - 1) <= 65535 * v <= hi * (p - 1)
    ensures lo * (65536 * p - 1) <= 65535 * (d + 65536 * v) <= hi * (65536 * p - 1)
  {
    MulDistr(lo, p, -1);
    MulDistr(hi, p, -1);
    MulDistr(lo, 65536 * p, -1);
    MulDistr(hi, 65536 * p, -1);
    MulAssoc(65536, p, lo);
    MulAssoc(65536, p, hi);
  }

  /** After one pass every limb but the lowest is a digit, and the number is nearly below 2^256. */
  lemma FirstPass(s: seq<int>)
    requires |s| == 16 && Within(s, -0x4000_0000_0000_0000, 0x4000_0000_0000_0000)
    ensures var r := Carried(s);
            && -0x20_0000_0000_0000 <= r[0] <= 0x20_0000_0000_0000
            && (forall i :: 1 <= i < 16 ==> 0 <= r[i] <= 65535)
  {
    hide Val, Digits, CarryOut, Pow;
    var d, c := Digits(s, 0, 65536), CarryOut(s, 0, 65536);
    ValWithin(s, -0x4000_0000_0000_0000, 0x4000_0000_0000_0000);
    DigitsVal(s, 0, 65536);
    DigitsBound(d, 65536);
    LimbWeights();
    assert -0x8000_0000_0000 <= c <= 0x8000_0000_0000;
  }

  ghost predicate NearlyCarried(s: seq<int>) {
    && |s| == 16
    && -0x20_0000_0000_0000 <= s[0] <= 0x20_0000_0000_0000
    && forall i :: 1 <= i < 16 ==> 0 <= s[i] <= 65535
  }

  /** The second pass carries at most one unit out of the top. */
  lemma SecondPass(s: seq<int>)
    requires NearlyCarried(s)
    ensures Tight(Carried(s))
    ensures 0 <= Val(Carried(s), 65536) < Pow(65536, 16)
  {
    hide Val, Digits, CarryOut, Pow;
    var d, c := Digits(s, 0, 65536), CarryOut(s, 0, 65536);
    var z := s[0 := 0];
    ValUpdateLow(s, 0, 65536);
    DigitsBound(z, 65536);
    DigitsVal(s, 0, 65536);
    DigitsBound(d, 65536);
    ValUpdateLow(d, d[0] + 38 * c, 65536);
    LimbWeights();
    assert -1 <= c <= 1;
  }

  /** From there the third pass leaves sixteen digits. */
  lemma ThirdPass(s: seq<int>)
    requires |s| == 16 && 0 <= Val(s, 65536) < Pow(65536, 16)
    ensures AreDigits(Carried(s), 65536)
    ensures Val(Carried(s), 65536) == Val(s, 65536)
  {
    hide Val, Digits, CarryOut, Pow;
    var d, c := Digits(s, 0, 65536), CarryOut(s, 0, 65536);
    DigitsVal(s, 0, 65536);
    DigitsBound(d, 65536);
    LimbWeights();
    assert c == 0;
    assert Carried(s) == d;
  }

  method Car25519(o: array<i64>)
    requires IsGf(o) && Within(o[..], -0x4000_0000_0000_0000, 0x4000_0000_0000_0000)
    modifies o
    ensures o[..] == Carried(old(o[..]))
  {
    ghost var s: seq<int> := o[..];
    ghost var carry: int := 0;
    assert CarryOut(s[..0], 0, 65536) == 0;
    var i := 0;
    while i < 16
      invariant 0 <= i <= 16
      invariant carry == CarryOut(s[..i], 0, 65536)
      invariant -0x8000_0000_0000 <= carry <= 0x8000_0000_0000
      invariant forall k :: 0 < k < i ==> o[k] == Digits(s, 0, 65536)[k]
      invariant 0 < i ==> o[0] == Digits(s, 0, 65536)[0] + if i == 16 then 38 * carry else 0
      invariant i < 16 ==> o[i] == s[i] + carry
      invariant forall k :: i < k < 16 ==> o[k] == s[k]
    {
      DigitsAt(s, 0, 65536, i);
      o[i] := o[i] + 0x1_0000;
      var c: i64 := o[i] / 0x1_0000;
      var back: i64 := c - 1 + 37 * (c - 1) * (if i == 15 then 1 else 0);
      var next := if i < 15 then i + 1 else 0;
      o[next] := o[next] + back;
      o[i] := o[i] - c * 0x1_0000;
      carry := c - 1;
      i := i + 1;
    }
    assert s[..16] == s;
  }

  /** Exchanges p and q when b is 1, by masks; does nothing when b is 0. */
  method Sel25519(p: array<i64>, q: array<i64>, b: int)
    requires IsGf(p) && IsGf(q) && p != q && 0 <= b <= 1
    modifies p, q
    ensures p[..] == if b == 1 then old(q[..]) else old(p[..])
    ensures q[..] == if b == 1 then old(p[..]) else old(q[..])
  {
    var c: i64 := -(b - 1) - 1;
    var i := 0;
    while i < 16
      invariant 0 <= i <= 16
      invariant forall k :: 0 <= k < i ==> p[k] == if b == 1 then old(q[k]) else old(p[k])
      invariant forall k :: 0 <= k < i ==> q[k] == if b == 1 then old(p[k]) else old(q[k])
      invariant forall k :: i <= k < 16 ==> p[k] == old(p[k]) && q[k] == old(q[k])
    {
      MaskSwap(p[i], q[i], c);
      var t := And64(c, Xor64(p[i], q[i]));
      p[i] := Xor64(p[i], t);
      q[i] := Xor64(q[i], t);
      i := i + 1;
    }
  }

  method SetGf(r: array<i64>, a: array<i64>)
    requires IsGf(r) && IsGf(a)
    modifies r
    ensures r[..] == old(a[..])
  {
    var i := 0;
    while i < 16
      invariant 0 <= i <= 16
      invariant forall k :: 0 <= k < i ==> r[k] == old(a[k])
      invariant forall k :: i <= k < 16 ==> a[k] == old(a[k])
    {
      r[i] := a[i];
      i := i + 1;
    }
  }

  /** `A`: limbwise sum; the output may be one of the inputs. */
  method AddGf(o: array<i64>, a: array<i64>, b: array<i64>)
    requires IsGf(o) && IsGf(a) && IsGf(b)
    requires Within(a[..], -0x400_0000, 0x400_0000) && Within(b[..], -0x400_0000, 0x400_0000)
    modifies o
    ensures forall k :: 0 <= k < 16 ==> o[k] == old(a[k]) + old(b[k])
    ensures Fe(o[..]) == FAdd(old(Fe(a[..])), old(Fe(b[..])))
  {
    ghost var sa: seq<int>, sb: seq<int> := a[..], b[..];
    var i := 0;
    while i < 16
      invariant 0 <= i <= 16
      invariant forall k :: 0 <= k < i ==> o[k] == sa[k] + sb[k]
      invariant forall k :: i <= k < 16 ==> a[k] == sa[k] && b[k] == sb[k]
    {
      o[i] := a[i] + b[i];
      i := i + 1;
    }
    ValLinear(sa, sb, o[..], 1, 65536);
    CongMod(Val(sa, 65536), P25519);
    CongMod(Val(sb, 65536), P25519);
    CongAdd(Fe(sa), Val(sa, 65536), Fe(sb), Val(sb, 65536), P25519);
  }

  /** `Z`: limbwise difference. */
  method SubGf(o: array<i64>, a: array<i64>, b: array<i64>)
    requires IsGf(o) && IsGf(a) && IsGf(b)
    requires Within(a[..], -0x400_0000, 0x400_0000) && Within(b[..], -0x400_0000, 0x400_0000)
    modifies o
    ensures forall k :: 0 <= k < 16 ==> o[k] == old(a[k]) - old(b[k])
    ensures Fe(o[..]) == FSub(old(Fe(a[..])), old(Fe(b[..])))
  {
    ghost var sa: seq<int>, sb: seq<int> := a[..], b[..];
    var i := 0;
    while i < 16
      invariant 0 <= i <= 16
      invariant forall k :: 0 <= k < i ==> o[k] == sa[k] - sb[k]
      invariant forall k :: i <= k < 16 ==> a[k] == sa[k] && b[k] == sb[k]
    {
      o[i] := a[i] - b[i];
      i := i + 1;
    }
    ValLinear(sa, sb, o[..], -1, 65536);
    CongMod(Val(sa, 65536), P25519);
    CongMod(Val(sb, 65536), P25519);
    CongAdd(Fe(sa), Val(sa, 65536), Fe(sb), Val(sb, 65536), P25519);
  }

  // ---------- multiplication ----------

  /** Adds a[i] times b to the partial product at limb i. */
  method AddRow(t: array<i64>, a: i64, i: nat, b: array<i64>)
    requires t.Length == 31 && IsGf(b) && t != b && i < 16
    requires -0x400_0000 <= a <= 0x400_0000 && Within(b[..], -0x400_0000, 0x400_0000)
    requires Within(t[..], -(i * 0x10_0000_0000_0000), i * 0x10_0000_0000_0000)
    modifies t
    ensures Within(t[..], -(i + 1) * 0x10_0000_0000_0000, (i + 1) * 0x10_0000_0000_0000)
    ensures Val(t[..], 65536) == old(Val(t[..], 65536)) + a * Pow(65536, i) * Val(b[..], 65536)
    ensures forall k :: i + 16 <= k < 31 ==> t[k] == old(t[k])
  {
    ghost var w := Pow(65536, i);
    ghost var v0 := Val(t[..], 65536);
    var j := 0;
    while j < 16
      invariant 0 <= j <= 16
      invariant b[..] == old(b[..])
      invariant forall k :: 0 <= k < i + j && k < 31 ==>
        -(i + 1) * 0x10_0000_0000_0000 <= t[k] <= (i + 1) * 0x10_0000_0000_0000
      invariant forall k :: i + j <= k < 31 ==> t[k] == old(t[k])
      invariant Val(t[..], 65536) == v0 + a * w * Val(b[..j], 65536)
    {
      assert b[j] == b[..][j] && t[i + j] == old(t[..])[i + j];
      ProductBound(a, b[j]);
      var prod: i64 := a * b[j];
      ghost var before: seq<int> := t[..];
      t[i + j] := t[i + j] + prod;
      ValUpdate(before, i + j, t[i + j], 65536);
      assert t[..] == before[i + j := t[i + j]];
      RowStep(v0, a, i, j, b[..], Val(before, 65536), Val(t[..], 65536));
      j := j + 1;
    }
    assert b[..16] == b[..];
  }

  lemma ProductBound(x: int, y: int)
    requires -0x400_0000 <= x <= 0x400_0000 && -0x400_0000 <= y <= 0x400_0000
    ensures -0x10_0000_0000_0000 <= x * y <= 0x10_0000_0000_0000
  {
    var ax, ay := if x < 0 then -x else x, if y < 0 then -y else y;
    MulBound(ax, ay, 0x400_0000, 0x400_0000);
    assert x * y == ax * ay || x * y == -(ax * ay);
  }

  lemma RowStep(v0: int, a: int, i: nat, j: nat, b: seq<int>, v: int, v': int)
    requires |b| == 16 && j < 16
    requires v == v0 + a * Pow(65536, i) * Val(b[..j], 65536)
    requires v' == v + a * b[j] * Pow(65536, i + j)
    ensures v' == v0 + a * Pow(65536, i) * Val(b[..j + 1], 65536)
  {
    var w, u, x := Pow(65536, i), Pow(65536, j), Val(b[..j], 65536);
    assert b[..j + 1] == b[..j] + [b[j]];
    ValAppend(b[..j], b[j], 65536);
    PowAdd(65536, i, j);
    MulDistr(a * w, x, u * b[j]);
    assert a * b[j] * (w * u) == a * w * (u * b[j]) by {
      MulAssoc(a, b[j], w * u);
      MulAssoc(a, w, u * b[j]);
      assert b[j] * (w * u) == w * (u * b[j]) by {
        MulAssoc(w, u, b[j]);
      }
    }
  }

  /** The double loop: thirty-one limbs hold the whole product. */
  method Convolve(a: array<i64>, b: array<i64>) returns (t: array<i64>)
    requires IsGf(a) && IsGf(b)
    requires Within(a[..], -0x400_0000, 0x400_0000) && Within(b[..], -0x400_0000, 0x400_0000)
    ensures fresh(t) && t.Length == 31
    ensures Val(t[..], 65536) == Val(a[..], 65536) * Val(b[..], 65536)
    ensures Within(t[..], -0x100_0000_0000_0000, 0x100_0000_0000_0000)
  {
    t := new i64[31](_ => 0);
    ValZero(t[..], 65536);
    ghost var vb := Val(b[..], 65536);
    var i := 0;
    while i < 16
      invariant 0 <= i <= 16
      invariant fresh(t) && t.Length == 31
      invariant Within(t[..], -(i * 0x10_0000_0000_0000), i * 0x10_0000_0000_0000)
      invariant a[..] == old(a[..]) && b[..] == old(b[..])
      invariant Val(t[..], 65536) == Val(a[..i], 65536) * vb
    {
      assert a[i] == a[..][i];
      AddRow(t, a[i], i, b);
      assert a[..i + 1] == a[..i] + [a[i]];
      ValAppend(a[..i], a[i], 65536);
      MulDistr(vb, Val(a[..i], 65536), Pow(65536, i) * a[i]);
      assert Pow(65536, i) * a[i] == a[i] * Pow(65536, i);
      i := i + 1;
    }
    assert a[..16] == a[..];
  }

  /** Fifteen limbs above 2^256 come back multiplied by 38. */
  lemma FoldedFe(t: seq<int>, r: seq<int>)
    requires |t| == 31 && |r| == 16
    requires forall k :: 0 <= k < 15 ==> r[k] == t[k] + 38 * t[k + 16]
    requires r[15] == t[15]
    ensures Val(r, 65536) % P25519 == Val(t, 65536) % P25519
  {
    var high := t[16..] + [0];
    ValAppend(t[16..], 0, 65536);
    ValLinear(t[..16], high, r, 38, 65536);
    ValSplit(t, 16, 65536);
    LimbWeights();
    var v := Val(t[16..], 65536);
    CongIntro(Val(r, 65536), Val(t, 65536), -2 * v, P25519);
  }

  /** `M`: the product in the field, with no 64-bit overflow for limbs up to 2^26. */
  method MulGf(o: array<i64>, a: array<i64>, b: array<i64>)
    requires IsGf(o) && IsGf(a) && IsGf(b)
    requires Within(a[..], -0x400_0000, 0x400_0000) && Within(b[..], -0x400_0000, 0x400_0000)
    modifies o
    ensures Fe(o[..]) == FMul(old(Fe(a[..])), old(Fe(b[..])))
    ensures Tight(o[..])
  {
    ghost var va, vb := Val(a[..], 65536), Val(b[..], 65536);
    var t := Convolve(a, b);
    FoldTop(o, t);
    ghost var r: seq<int> := o[..];
    Car25519(o);
    CarriedVal(r);
    FirstPass(r);
    ghost var r1: seq<int> := o[..];
    Car25519(o);
    CarriedVal(r1);
    SecondPass(r1);
    CongMod(va, P25519);
    CongMod(vb, P25519);
    CongMul(va % P25519, va, vb % P25519, vb, P25519);
  }

  method FoldTop(o: array<i64>, t: array<i64>)
    requires IsGf(o) && t.Length == 31 && o != t
    requires Within(t[..], -0x100_0000_0000_0000, 0x100_0000_0000_0000)
    modifies o, t
    ensures Fe(o[..]) == old(Val(t[..], 65536)) % P25519
    ensures Within(o[..], -0x4000_0000_0000_0000, 0x4000_0000_0000_0000)
  {
    ghost var s: seq<int> := t[..];
    var i := 0;
    while i < 15
      invariant 0 <= i <= 15
      invariant forall k :: 0 <= k < i ==> t[k] == s[k] + 38 * s[k + 16]
      invariant forall k :: i <= k < 31 ==> t[k] == s[k]
    {
      t[i] := t[i] + 38 * t[i + 16];
      i := i + 1;
    }
    i := 0;
    while i < 16
      invariant 0 <= i <= 16
      invariant forall k :: 0 <= k < i ==> o[k] == t[k]
      invariant forall k :: 0 <= k < 15 ==> t[k] == s[k] + 38 * s[k + 16]
      invariant t[15] == s[15]
    {
      o[i] := t[i];
      i := i + 1;
    }
    FoldedFe(s, o[..]);
    forall k | 0 <= k < 16
      ensures -0x4000_0000_0000_0000 <= o[..][k] <= 0x4000_0000_0000_0000
    {
      assert -0x100_0000_0000_0000 <= s[k] <= 0x100_0000_0000_0000;
      if k < 15 {
        assert -0x100_0000_0000_0000 <= s[k + 16] <= 0x100_0000_0000_0000;
      }
    }
  }

  /** `S`: the square. */
  method SquareGf(o: array<i64>, a: array<i64>)
    requires IsGf(o) && IsGf(a)
    requires Within(a[..], -0x400_0000, 0x400_0000)
    modifies o
    ensures Fe(o[..]) == FMul(old(Fe(a[..])), old(Fe(a[..])))
    ensures Tight(o[..])
  {
    MulGf(o, a, a);
  }

  // ---------- inversion ----------

  /** The exponent reached once the loop of `inv25519` has run down to step a. */
  function InvExponent(a: nat): (e: nat)
    requires a <= 254
    decreases 254 - a
  {
    if a == 254 then 1
    else 2 * InvExponent(a + 1) + if a != 2 && a != 4 then 1 else 0
  }

  lemma {:induction false} InvExponentOnes(a: nat)
    requires 5 <= a <= 254
    ensures InvExponent(a) == Pow2(255 - a) - 1
    decreases 254 - a
  {
    if a < 254 {
      InvExponentOnes(a + 1);
    }
  }

  /** Skipping the multiplication at steps 2 and 4 gives the exponent p - 2. */
  lemma InvExponentIs()
    ensures InvExponent(0) == P25519 - 2
  {
    InvExponentOnes(5);
    var e := InvExponent(5);
    assert InvExponent(4) == 2 * e;
    assert InvExponent(3) == 4 * e + 1;
    assert InvExponent(2) == 8 * e + 2;
    assert InvExponent(1) == 16 * e + 5;
    assert InvExponent(0) == 32 * e + 11;
    WordSizes();
    Pow2Add(64, 64);
    Pow2Add(128, 64);
    Pow2Add(192, 32);
    Pow2Add(224, 8);
    Pow2Add(232, 8);
    Pow2Add(240, 8);
    assert Pow2(2) == 4;
    Pow2Add(248, 2);
  }

  lemma PowStep(x: int, e: nat, c: int)
    requires c == FPow(x, e)
    ensures FMul(c, c) == FPow(x, 2 * e)
    ensures FMul(FMul(c, c), x) == FPow(x, 2 * e + 1)
  {
    CongMod(Pow(x, e), P25519);
    CongMul(c, Pow(x, e), c, Pow(x, e), P25519);
    PowSquare(x, e);
    CongMod(c * c, P25519);
    CongMul(FMul(c, c), Pow(x, 2 * e), x, x, P25519);
    assert Pow(x, 2 * e + 1) == Pow(x, 2 * e) * x;
  }

  method Inv25519(o: array<i64>, i: array<i64>)
    requires IsGf(o) && IsGf(i) && Tight(i[..])
    modifies o
    ensures Fe(o[..]) == FPow(old(Fe(i[..])), P25519 - 2)
    ensures Tight(o[..])
  {
    ghost var x := Fe(i[..]);
    var c := new i64[16];
    SetGf(c, i);
    var a := 253;
    assert Pow(x, 1) == x;
    DivModUnique(x, P25519, 0, x);
    while a >= 0
      invariant -1 <= a <= 253
      invariant Tight(c[..]) && Tight(i[..]) && Fe(i[..]) == x
      invariant Fe(c[..]) == FPow(x, InvExponent(a + 1))
    {
      PowStep(x, InvExponent(a + 1), Fe(c[..]));
      SquareGf(c, c);
      if a != 2 && a != 4 {
        MulGf(c, c, i);
      }
      a := a - 1;
    }
    InvExponentIs();
    SetGf(o, c);
  }

  // ---------- packing ----------

  /** The limbs of 2^255 - 19. */
  ghost function PLimb(i: nat): (r: int) {
    if i == 0 then 0xffed else if i < 15 then 0xffff else 0x7fff
  }

  ghost function MinusP(t: seq<int>): (d: seq<int>)
    requires |t| == 16
    ensures |d| == 16
  {
    seq(16, i requires 0 <= i < 16 => t[i] - PLimb(i))
  }

  lemma MinusPVal(t: seq<int>)
    requires |t| == 16
    ensures Val(MinusP(t), 65536) == Val(t, 65536) - P25519
  {
    hide Val;
    var p := seq(16, i requires 0 <= i < 16 => PLimb(i));
    var ones := seq(16, i => 65535);
    OnesVal(ones);
    ValUpdate(ones, 0, 0xffed, 65536);
    ValUpdate(ones[0 := 0xffed], 15, 0x7fff, 65536);
    assert p == ones[0 := 0xffed][15 := 0x7fff];
    LimbWeights();
    assert Pow(65536, 16) == 65536 * Pow(65536, 15);
    ValLinear(t, p, MinusP(t), -1, 65536);
  }

  lemma {:induction false} OnesVal(s: seq<int>)
    requires forall i :: 0 <= i < |s| ==> s[i] == 65535
    ensures Val(s, 65536) == Pow(65536, |s|) - 1
  {
    if s != [] {
      OnesVal(s[1..]);
    }
  }

  /** The trial subtraction of p with its borrows; the top limb keeps its sign. */
  method TrialSubtract(m: array<i64>, t: array<i64>) returns (b: int)
    requires IsGf(m) && IsGf(t) && m != t && AreDigits(t[..], 65536)
    modifies m
    ensures b == if Val(t[..], 65536) < P25519 then 1 else 0
    ensures b == 0 ==> AreDigits(m[..], 65536) && Val(m[..], 65536) == Val(t[..], 65536) - P25519
  {
    ghost var ts: seq<int> := t[..];
    ghost var d := MinusP(ts);
    BorrowLow(m, t);
    DigitsAt(d, 0, 65536, 14);
    assert t[15] == ts[15] && 0 <= ts[14] < 65536;
    m[15] := t[15] - 0x7fff - m[14] / 0x1_0000 % 2;
    b := m[15] / 0x1_0000 % 2;
    m[14] := m[14] % 0x1_0000;
    assert forall k :: 0 <= k < 15 ==> m[k] == Digits(d, 0, 65536)[k];
    BorrowVal(ts, d, m[..]);
  }

  /** Limbs 0 to 14 of the trial subtraction; limb 14 is not masked yet. */
  method BorrowLow(m: array<i64>, t: array<i64>)
    requires IsGf(m) && IsGf(t) && m != t && AreDigits(t[..], 65536)
    modifies m
    ensures var d := MinusP(t[..]); var borrow := -CarryOut(d[..14], 0, 65536);
            && 0 <= borrow <= 1
            && (forall k :: 0 <= k < 14 ==> m[k] == Digits(d, 0, 65536)[k])
            && m[14] == d[14] - borrow
  {
    ghost var ts: seq<int> := t[..];
    ghost var d := MinusP(ts);
    ghost var digits := Digits(d, 0, 65536);
    m[0] := t[0] - 0xffed;
    ghost var borrow := 0;
    assert CarryOut(d[..0], 0, 65536) == 0;
    var i := 1;
    while i < 15
      invariant 1 <= i <= 15
      invariant t[..] == ts
      invariant forall k :: 0 <= k < i - 1 ==> m[k] == digits[k]
      invariant 0 <= borrow <= 1 && borrow == -CarryOut(d[..i - 1], 0, 65536)
      invariant m[i - 1] == d[i - 1] - borrow
    {
      DigitsAt(d, 0, 65536, i - 1);
      assert t[i] == ts[i] && 0 <= ts[i - 1] < 65536;
      borrow := m[i - 1] / 0x1_0000 % 2;
      m[i] := t[i] - 0xffff - m[i - 1] / 0x1_0000 % 2;
      m[i - 1] := m[i - 1] % 0x1_0000;
      i := i + 1;
    }
  }

  lemma BorrowVal(t: seq<int>, d: seq<int>, m: seq<int>)
    requires |t| == 16 && |m| == 16 && AreDigits(t, 65536) && d == MinusP(t)
    requires forall k :: 0 <= k < 15 ==> m[k] == Digits(d, 0, 65536)[k]
    requires m[15] == d[15] + CarryOut(d[..15], 0, 65536)
    ensures m[15] / 65536 == if Val(t, 65536) < P25519 then -1 else 0
    ensures Val(t, 65536) >= P25519 ==> AreDigits(m, 65536) && Val(m, 65536) == Val(t, 65536) - P25519
  {
    hide *;
    TopCarry(t, d);
    TopDigit(d, m[15]);
    if Val(t, 65536) >= P25519 {
      assert m == Digits(d, 0, 65536);
    }
  }

  lemma TopDigit(d: seq<int>, top: int)
    requires |d| == 16 && top == d[15] + CarryOut(d[..15], 0, 65536)
    ensures Digits(d, 0, 65536)[15] == top % 65536
    ensures CarryOut(d, 0, 65536) == top / 65536
  {
    DigitsAt(d, 0, 65536, 15);
    assert d[..16] == d;
  }

  lemma TopCarry(t: seq<int>, d: seq<int>)
    requires |t| == 16 && AreDigits(t, 65536) && d == MinusP(t)
    ensures CarryOut(d, 0, 65536) == if Val(t, 65536) < P25519 then -1 else 0
    ensures AreDigits(Digits(d, 0, 65536), 65536)
    ensures Val(t, 65536) >= P25519 ==> Val(Digits(d, 0, 65536), 65536) == Val(t, 65536) - P25519
  {
    hide Val, Digits, CarryOut, Pow, MinusP;
    DigitsVal(d, 0, 65536);
    DigitsBound(Digits(d, 0, 65536), 65536);
    DigitsBound(t, 65536);
    MinusPVal(t);
    LimbWeights();
  }

  /** One round of the loop in `pack25519`: subtract p unless that would go below zero. */
  method SubtractOnce(t: array<i64>)
    requires IsGf(t) && AreDigits(t[..], 65536)
    modifies t
    ensures AreDigits(t[..], 65536)
    ensures Val(t[..], 65536) == var v := old(Val(t[..], 65536)); if v < P25519 then v else v - P25519
  {
    var m := new i64[16](_ => 0);
    var b := TrialSubtract(m, t);
    Sel25519(t, m, 1 - b);
  }

  /** Bytes in pairs are limbs. */
  lemma {:induction false} PairsVal(b: seq<int>, t: seq<int>)
    requires |b| == 2 * |t|
    requires forall i :: 0 <= i < |t| ==> t[i] == b[2 * i] + 256 * b[2 * i + 1]
    ensures Val(b, 256) == Val(t, 65536)
  {
    if t != [] {
      forall i | 0 <= i < |t| - 1
        ensures t[1..][i] == b[2..][2 * i] + 256 * b[2..][2 * i + 1]
      {
        assert t[i + 1] == b[2 * (i + 1)] + 256 * b[2 * (i + 1) + 1];
      }
      PairsVal(b[2..], t[1..]);
      assert t[0] == b[2 * 0] + 256 * b[2 * 0 + 1];
      assert b[1..][1..] == b[2..];
      assert Val(b, 256) == b[0] + 256 * (b[1] + 256 * Val(b[2..], 256));
    }
  }

  /** The unique little-endian encoding, in [0, 2^255 - 19), of the element n stands for. */
  method Pack25519(o: array<u8>, n: array<i64>)
    requires o.Length == 32 && IsGf(n)
    requires Within(n[..], -0x4000_0000_0000_0000, 0x4000_0000_0000_0000)
    modifies o
    ensures o[..] == LeBytes(old(Fe(n[..])), 32)
  {
    ghost var x := Fe(n[..]);
    var t := new i64[16];
    SetGf(t, n);
    Normalize(t);
    DigitsBound(t[..], 65536);
    LimbWeights();
    ghost var v := Val(t[..], 65536);
    SubtractOnce(t);
    SubtractOnce(t);
    DivModUnique(v, P25519, if v < P25519 then 0 else if v < 2 * P25519 then 1 else 2,
                 if v < P25519 then v else if v < 2 * P25519 then v - P25519 else v - 2 * P25519);
    StoreLimbs(o, t);
  }

  /** Three carry passes leave sixteen digits. */
  method Normalize(t: array<i64>)
    requires IsGf(t) && Within(t[..], -0x4000_0000_0000_0000, 0x4000_0000_0000_0000)
    modifies t
    ensures AreDigits(t[..], 65536)
    ensures Fe(t[..]) == old(Fe(t[..]))
  {
    ghost var s0: seq<int> := t[..];
    CarriedVal(s0);
    FirstPass(s0);
    Car25519(t);
    ghost var s1: seq<int> := t[..];
    CarriedVal(s1);
    SecondPass(s1);
    Car25519(t);
    ghost var s2: seq<int> := t[..];
    ThirdPass(s2);
    Car25519(t);
  }

  method StoreLimbs(o: array<u8>, t: array<i64>)
    requires o.Length == 32 && IsGf(t) && AreDigits(t[..], 65536)
    modifies o
    ensures Val(t[..], 65536) >= 0
    ensures o[..] == LeBytes(Val(t[..], 65536), 32)
  {
    var i := 0;
    while i < 16
      invariant 0 <= i <= 16
      invariant t[..] == old(t[..])
      invariant forall k :: 0 <= k < i ==> t[k] == o[2 * k] as int + 256 * (o[2 * k + 1] as int)
    {
      assert t[i] == t[..][i];
      o[2 * i] := t[i] % 0x100;
      o[2 * i + 1] := t[i] / 0x100;
      i := i + 1;
    }
    PairsVal(o[..], t[..]);
    LeBytesVal(o[..], 32);
    assert o[..][..32] == o[..];
  }

  method Unpack25519(o: array<i64>, n: array<u8>)
    requires IsGf(o) && n.Length == 32
    modifies o
    ensures AreDigits(o[..], 65536)
    ensures Val(o[..], 65536) == DecodeU(n[..])
  {
    ghost var b := n[..31] + [n[31] % 128];
    var i := 0;
    while i < 16
      invariant 0 <= i <= 16
      invariant forall k :: 0 <= k < i ==> o[k] == n[2 * k] as int + 256 * (n[2 * k + 1] as int)
    {
      o[i] := n[2 * i] as int + (n[2 * i + 1] as int) * 0x100;
      i := i + 1;
    }
    o[15] := o[15] % 0x8000;
    assert o[15] == n[30] as int + 256 * (n[31] as int % 128);
    PairsVal(b, o[..]);
  }

  /** Packing what was unpacked gives back every canonical encoding. */
  method PackUnpack(n: array<u8>) returns (q: array<u8>)
    requires n.Length == 32 && Val(n[..], 256) < P25519
    ensures fresh(q) && q[..] == n[..]
  {
    var o := new i64[16];
    q := new u8[32];
    Unpack25519(o, n);
    CanonicalTop(n[..]);
    ghost var v := Val(o[..], 65536);
    DivModUnique(v, P25519, 0, v);
    Pack25519(q, o);
    LeBytesVal(n[..], 32);
    assert n[..][..32] == n[..];
  }

  /** Below 2^255 the top bit is clear, so the mask changes nothing. */
  lemma CanonicalTop(n: seq<u8>)
    requires |n| == 32 && Val(n, 256) < P25519
    ensures DecodeU(n) == Val(n, 256) && Val(n, 256) >= 0
  {
    var p, v, top := Pow(256, 31), Val(n[..31], 256), n[31];
    DigitsBound(n, 256);
    DigitsBound(n[..31], 256);
    assert n == n[..31] + [top];
    ValAppend(n[..31], top, 256);
    LimbWeights();
    PowSquare(256, 16);
    assert Pow(256, 32) == 256 * p;
    assert v >= 0 && P25519 < 128 * p && v + p * top < P25519;
    hide *;
    if top >= 128 {
      MulBound(p, 128, p, top);
    }
    assert top % 128 == top;
  }
}
