/**
  `crypto_onetimeauth` of tweetnacl.c: seventeen byte-sized limbs in `unsigned
  long` words. Every value stored is a `u32`, so nothing overflows where that
  type is 32 bits wide.
*/
module Poly1305 {
  import opened Arith
  import opened Bits
  import opened Limbs
  import opened Poly1305Spec

  ghost function Sum(a: seq<int>, b: seq<int>): (r: seq<int>)
    requires |a| == |b|
    ensures |r| == |a|
  {
    seq(|a|, i requires 0 <= i < |a| => a[i] + b[i])
  }

  lemma SumVal(a: seq<int>, b: seq<int>)
    requires |a| == |b|
    ensures Val(Sum(a, b), 256) == Val(a, 256) + Val(b, 256)
  {
    ValLinear(a, b, Sum(a, b), 1, 256);
  }

  method Add1305(h: array<u32>, c: array<u32>)
    requires h.Length == 17 && c.Length == 17 && h != c
    requires AreDigits(h[..], 256) && AreDigits(c[..], 256)
    modifies h
    ensures h[..] == Digits(Sum(old(h[..]), c[..]), 0, 256)
  {
    ghost var s := Sum(h[..], c[..]);
    var u: u32, j := 0, 0;
    assert CarryOut(s[..0], 0, 256) == 0;
    while j < 17
      invariant 0 <= j <= 17 && u <= 1
      invariant u == CarryOut(s[..j], 0, 256)
      invariant h[..j] == Digits(s, 0, 256)[..j]
      invariant h[j..] == old(h[..])[j..]
      invariant c[..] == old(c[..])
    {
      DigitsAt(s, 0, 256, j);
      assert h[j] == old(h[..])[j..][0];
      u := u + h[j] + c[j];
      h[j] := u % 256;
      u := u / 256;
      assert h[j + 1..] == old(h[..])[j..][1..];
      assert h[..j + 1] == h[..j] + [h[j]];
      j := j + 1;
    }
    assert h[..17] == h[..];
  }

  /** A carry pass over the sixteen low limbs; the carry comes in and goes out in u. */
  method CarryPass(h: array<u32>, start: u32) returns (u: u32)
    requires h.Length == 17
    requires Within(h[..], 0, 353_736_000)
    requires start <= 450_000_000
    modifies h
    ensures h[..] == Digits(old(h[..16]), start, 256) + [old(h[16])]
    ensures u == CarryOut(old(h[..16]), start, 256)
    ensures u <= 450_000_000 && (start == 0 ==> u <= 1_400_000)
  {
    ghost var s := h[..16];
    u := start;
    var j := 0;
    assert CarryOut(s[..0], start, 256) == start;
    while j < 16
      invariant 0 <= j <= 16
      invariant u <= 450_000_000 && (start == 0 ==> u <= 1_400_000)
      invariant u == CarryOut(s[..j], start, 256)
      invariant h[..j] == Digits(s, start, 256)[..j]
      invariant h[j..] == old(h[..])[j..]
    {
      DigitsAt(s, start, 256, j);
      assert h[j] == old(h[..])[j..][0];
      u := u + h[j];
      h[j] := u % 256;
      u := u / 256;
      assert h[j + 1..] == old(h[..])[j..][1..];
      assert h[..j + 1] == h[..j] + [h[j]];
      j := j + 1;
    }
    assert s[..16] == s;
    assert h[16] == old(h[..])[16..][0];
    assert h[..] == h[..16] + [h[16]];
  }

  /** Factor of h[j] in limb i of the product: limbs past the top come back times 320. */
  function Weight(r: seq<int>, i: nat, j: nat): (res: int)
    requires |r| == 17 && i < 17 && j < 17
  {
    if j <= i then r[i - j] else 320 * r[i + 17 - j]
  }

  ghost function Dot(h: seq<int>, r: seq<int>, i: nat, j: nat): (res: int)
    requires |h| == 17 && |r| == 17 && i < 17 && j <= 17
  {
    if j == 0 then 0 else Dot(h, r, i, j - 1) + h[j - 1] * Weight(r, i, j - 1)
  }

  ghost function Rows(h: seq<int>, r: seq<int>, j: nat): (x: seq<int>)
    requires |h| == 17 && |r| == 17 && j <= 17
    ensures |x| == 17
  {
    seq(17, i requires 0 <= i < 17 => Dot(h, r, i, j))
  }

  ghost function Rotated(r: seq<int>, j: nat): (x: seq<int>)
    requires |r| == 17 && j < 17
    ensures |x| == 17
  {
    seq(17, i requires 0 <= i < 17 => Weight(r, i, j))
  }

  /** 256^17 == 2^136 == 64 * (2^130 - 5) + 320: rotating by j limbs multiplies by 256^j. */
  lemma RotatedVal(r: seq<int>, j: nat)
    requires |r| == 17 && j < 17
    ensures Cong(Val(Rotated(r, j), 256), Pow(256, j) * Val(r, 256), P1305)
  {
    hide *;
    RotatedSplit(r, j);
    ValSplit(r, 17 - j, 256);
    PowAdd(256, j, 17 - j);
    FoldTop(Pow(256, j), Pow(256, 17 - j), Val(r[..17 - j], 256), Val(r[17 - j..], 256), Val(r, 256));
  }

  lemma RotatedSplit(r: seq<int>, j: nat)
    requires |r| == 17 && j < 17
    ensures Val(Rotated(r, j), 256) == 320 * Val(r[17 - j..], 256) + Pow(256, j) * Val(r[..17 - j], 256)
  {
    var low, high := r[..17 - j], r[17 - j..];
    var folded := seq(j, i requires 0 <= i < j => 320 * high[i]);
    assert Rotated(r, j) == folded + low;
    var zeros := seq(j, i => 0);
    ValZero(zeros, 256);
    ValLinear(zeros, high, folded, 320, 256);
    ValConcat(folded, low, 256);
  }

  lemma FoldTop(pj: int, pk: int, low: int, high: int, v: int)
    requires pj * pk == Pow(256, 17)
    requires v == low + pk * high
    ensures Cong(320 * high + pj * low, pj * v, P1305)
  {
    LimbWeights();
    assert Pow(256, 17) == 64 * P1305 + 320;
    MulDistr(pj, low, pk * high);
    MulAssoc(pj, pk, high);
    MulDistr(high, 64 * P1305, 320);
    CongIntro(320 * high + pj * low, pj * v, -64 * high, P1305);
  }

  /** The limbs of the folded product hold h * r modulo 2^130 - 5. */
  lemma {:induction false} RowsVal(h: seq<int>, r: seq<int>, j: nat)
    requires |h| == 17 && |r| == 17 && j <= 17
    ensures Cong(Val(Rows(h, r, j), 256), Val(h[..j], 256) * Val(r, 256), P1305)
  {
    if j == 0 {
      ValZero(Rows(h, r, 0), 256);
    } else {
      var k := h[j - 1];
      RowsVal(h, r, j - 1);
      ValLinear(Rows(h, r, j - 1), Rotated(r, j - 1), Rows(h, r, j), k, 256);
      RotatedVal(r, j - 1);
      assert h[..j] == h[..j - 1] + [k];
      ValAppend(h[..j - 1], k, 256);
      AddRow(Val(Rows(h, r, j - 1), 256), Val(h[..j - 1], 256), Val(Rotated(r, j - 1), 256),
             Pow(256, j - 1), Val(r, 256), k);
    }
  }

  lemma AddRow(x: int, h: int, rotated: int, p: int, r: int, k: int)
    requires Cong(x, h * r, P1305) && Cong(rotated, p * r, P1305)
    ensures Cong(x + k * rotated, (h + p * k) * r, P1305)
  {
    CongMul(k, k, rotated, p * r, P1305);
    CongAdd(x, h * r, k * rotated, k * (p * r), P1305);
    MulShift(h, p, k, r);
    MulAssoc(p, r, k);
  }

  /** The nested product loop; at most 17 * 255 * 320 * 255 per limb. */
  method Product(x: array<u32>, h: array<u32>, r: array<u32>)
    requires x.Length == 17 && h.Length == 17 && r.Length == 17 && x != h && x != r
    requires AreDigits(h[..], 256) && AreDigits(r[..], 256)
    modifies x
    ensures x[..] == Rows(h[..], r[..], 17)
    ensures Within(x[..], 0, 353_736_000)
  {
    var i := 0;
    while i < 17
      invariant 0 <= i <= 17
      invariant h[..] == old(h[..]) && r[..] == old(r[..])
      invariant forall k :: 0 <= k < i ==> x[k] == Dot(h[..], r[..], k, 17)
      invariant forall k :: 0 <= k < i ==> 0 <= x[k] <= 353_736_000
    {
      x[i] := 0;
      var j := 0;
      while j < 17
        invariant 0 <= j <= 17
        invariant h[..] == old(h[..]) && r[..] == old(r[..])
        invariant x[i] == Dot(h[..], r[..], i, j)
        invariant 0 <= x[i] <= j * 20_808_000
        invariant forall k :: 0 <= k < i ==> x[k] == Dot(h[..], r[..], k, 17)
        invariant forall k :: 0 <= k < i ==> 0 <= x[k] <= 353_736_000
      {
        assert AreDigits(h[..], 256) && AreDigits(r[..], 256);
        var w: u32 := if j <= i then r[i - j] else 320 * r[i + 17 - j];
        assert w == Weight(r[..], i, j);
        assert h[j] == h[..][j];
        MulBound(h[j], w, 255, 81_600);
        var term: u32 := h[j] * w;
        x[i] := x[i] + term;
        j := j + 1;
      }
      i := i + 1;
    }
  }

  /** What the accumulator looks like between blocks: bytes, a small top limb, less than 2p. */
  ghost predicate Reduced(h: seq<int>) {
    |h| == 17 && AreDigits(h, 256) && h[16] <= 4 && Val(h, 256) < 2 * P1305
  }

  /** Folding the bits from 2^130 up between the two carry passes. */
  lemma FoldedVal(s: seq<int>, low: seq<int>, top: int, h: seq<int>)
    requires |low| == 16 && |h| == 17 && 0 <= top <= 355_136_000
    requires AreDigits(low, 256) && AreDigits(h[..16], 256)
    requires Val(s, 256) == Val(low + [top], 256)
    requires Val(h, 256) == Val(low + [top % 4], 256) + 5 * (top / 4)
    ensures Cong(Val(h, 256), Val(s, 256), P1305)
    ensures Reduced(h)
  {
    TopLimb(low, top);
    TopLimb(low, top % 4);
    TopLimb(h[..16], h[16]);
    assert h == h[..16] + [h[16]];
    FoldTop130(Val(low, 256), top, Val(s, 256), Val(h, 256), Val(h[..16], 256), h[16]);
    assert forall i :: 0 <= i < 16 ==> h[i] == h[..16][i];
  }

  lemma TopLimb(low: seq<int>, top: int)
    requires |low| == 16
    ensures Val(low + [top], 256) == Val(low, 256) + 0x1_0000_0000_0000_0000_0000_0000_0000_0000 * top
    ensures AreDigits(low, 256) ==> 0 <= Val(low, 256) < 0x1_0000_0000_0000_0000_0000_0000_0000_0000
  {
    ValAppend(low, top, 256);
    LimbWeights();
    if AreDigits(low, 256) {
      DigitsBound(low, 256);
    }
  }

  /** A pass over the sixteen low limbs that adds its carry to the seventeenth. */
  lemma PassVal(s: seq<int>, u: int)
    requires |s| == 17
    ensures AreDigits(Digits(s[..16], u, 256), 256)
    ensures 0 <= Val(Digits(s[..16], u, 256), 256) < Pow(256, 16)
    ensures Val(Digits(s[..16], u, 256) + [s[16] + CarryOut(s[..16], u, 256)], 256) == Val(s, 256) + u
  {
    var d, c := Digits(s[..16], u, 256), CarryOut(s[..16], u, 256);
    DigitsVal(s[..16], u, 256);
    DigitsBound(d, 256);
    ValAppend(d, s[16] + c, 256);
    ValAppend(s[..16], s[16], 256);
    assert s == s[..16] + [s[16]];
    MulDistr(Pow(256, 16), s[16], c);
  }

  lemma FoldTop130(low: int, top: int, s: int, h: int, d: int, h16: int)
    requires 0 <= top <= 355_136_000
    requires 0 <= low < 0x1_0000_0000_0000_0000_0000_0000_0000_0000
    requires 0 <= d < 0x1_0000_0000_0000_0000_0000_0000_0000_0000
    requires s == low + 0x1_0000_0000_0000_0000_0000_0000_0000_0000 * top
    requires h == low + 0x1_0000_0000_0000_0000_0000_0000_0000_0000 * (top % 4) + 5 * (top / 4)
    requires h == d + 0x1_0000_0000_0000_0000_0000_0000_0000_0000 * h16
    ensures Cong(h, s, P1305)
    ensures h < 2 * P1305 && 0 <= h16 <= 4
  {
    CongIntro(h, s, -(top / 4), P1305);
  }

  method CopyLimbs(dst: array<u32>, src: array<u32>)
    requires dst.Length == 17 && src.Length == 17 && dst != src
    modifies dst
    ensures dst[..] == src[..]
  {
    var i := 0;
    while i < 17
      invariant 0 <= i <= 17
      invariant dst[..i] == src[..i]
      invariant src[..] == old(src[..])
    {
      dst[i] := src[i];
      assert dst[..i + 1] == dst[..i] + [dst[i]] && src[..i + 1] == src[..i] + [src[i]];
      i := i + 1;
    }
    assert dst[..17] == dst[..] && src[..17] == src[..];
  }

  method Reduce(h: array<u32>)
    requires h.Length == 17 && Within(h[..], 0, 353_736_000)
    modifies h
    ensures Cong(Val(h[..], 256), old(Val(h[..], 256)), P1305)
    ensures Reduced(h[..])
  {
    hide Val, Pow, Cong;
    ghost var s := h[..];
    assert h[..16] == s[..16] && h[16] == s[16];
    var u := CarryPass(h, 0);
    PassVal(s, 0);
    ghost var low := h[..16];
    assert low == Digits(s[..16], 0, 256);
    u := u + h[16];
    ghost var top := u;
    h[16] := u % 4;
    u := 5 * (u / 4);
    assert h[..16] == low;
    assert h[..] == low + [top % 4];
    PassVal(h[..], u);
    u := CarryPass(h, u);
    u := u + h[16];
    h[16] := u;
    assert h[..] == h[..16] + [h[16]];
    FoldedVal(s, low, top, h[..]);
  }

  /** Multiplies the accumulator by r and brings it back below 2p. */
  method MultiplyReduce(h: array<u32>, r: array<u32>)
    requires h.Length == 17 && r.Length == 17 && h != r
    requires AreDigits(h[..], 256) && AreDigits(r[..], 256)
    modifies h
    ensures Cong(Val(h[..], 256), old(Val(h[..], 256)) * Val(r[..], 256), P1305)
    ensures Reduced(h[..])
  {
    var x := new u32[17];
    Product(x, h, r);
    RowsVal(h[..], r[..], 17);
    assert h[..17] == h[..];
    CopyLimbs(h, x);
    Reduce(h);
  }

  /** `s` is all ones when the subtraction borrowed, and zero otherwise. */
  function Mask(top: nat, wordBits: nat): (r: nat)
    requires top < 256
  {
    (Pow2(wordBits) - top / 128) % Pow2(wordBits)
  }

  lemma MaskValue(top: nat, wordBits: nat)
    requires top < 256 && wordBits >= 32
    ensures Mask(top, wordBits) == if top / 128 == 1 then Pow2(wordBits) - 1 else 0
    ensures Pow2(wordBits) >= 0x1_0000_0000
  {
    Pow2AtLeast32(wordBits);
    if top / 128 == 1 {
      DivModUnique(Pow2(wordBits) - 1, Pow2(wordBits), 0, Pow2(wordBits) - 1);
    } else {
      DivModUnique(Pow2(wordBits), Pow2(wordBits), 1, 0);
    }
  }

  /** The masked selection: g where the top bit of h is set, h elsewhere. */
  method Select(h: array<u32>, g: array<u32>, wordBits: nat)
    requires h.Length == 17 && g.Length == 17 && h != g && wordBits >= 32 && h[16] < 256
    modifies h
    ensures h[..] == if old(h[16]) / 128 == 1 then g[..] else old(h[..])
  {
    var s := Mask(h[16], wordBits);
    ghost var ones := h[16] / 128 == 1;
    MaskValue(h[16], wordBits);
    var j := 0;
    while j < 17
      invariant 0 <= j <= 17
      invariant g[..] == old(g[..])
      invariant forall k :: 0 <= k < j ==> h[k] == if ones then g[k] else old(h[k])
      invariant forall k :: j <= k < 17 ==> h[k] == old(h[k])
    {
      MaskSelect(h[j], g[j], ones, wordBits);
      h[j] := Xor(h[j], And(s, Xor(g[j], h[j])));
      j := j + 1;
    }
  }

  /** The masked final subtraction is exact: the result is the residue itself. */
  method Freeze(h: array<u32>, wordBits: nat)
    requires h.Length == 17 && Reduced(h[..]) && wordBits >= 32
    modifies h
    ensures AreDigits(h[..], 256)
    ensures Val(h[..], 256) == old(Val(h[..], 256)) % P1305
  {
    var minusp := new u32[17](i => if i == 0 then 5 else if i == 16 then 252 else 0);
    var g := new u32[17];
    ghost var v := Val(h[..], 256);
    DigitsBound(h[..], 256);
    MinusPVal(minusp[..]);
    SumVal(h[..], minusp[..]);
    SubtractP(v, Sum(h[..], minusp[..]));
    CopyLimbs(g, h);
    Add1305(h, minusp);
    assert h[16] == h[..][16];
    Select(h, g, wordBits);
    DivModUnique(v, P1305, if v < P1305 then 0 else 1, if v < P1305 then v else v - P1305);
  }

  lemma Pow2AtLeast32(w: nat)
    requires w >= 32
    ensures Pow2(w) >= 0x1_0000_0000
  {
    if w > 32 {
      Pow2AtLeast32(w - 1);
    } else {
      WordSizes();
    }
  }

  lemma MinusPVal(m: seq<int>)
    requires |m| == 17
    requires forall k :: 0 <= k < 17 ==> m[k] == if k == 0 then 5 else if k == 16 then 252 else 0
    ensures Val(m, 256) == Pow(256, 17) - P1305
  {
    ValSplit(m, 16, 256);
    assert Val(m[16..], 256) == 252;
    ValZero(m[..16][1..], 256);
    LimbWeights();
  }

  /** Adding 2^136 - p modulo 2^136 subtracts p; the top bit tells whether it borrowed. */
  lemma SubtractP(v: int, s: seq<int>)
    requires 0 <= v < 2 * P1305
    requires |s| == 17 && Val(s, 256) == v + Pow(256, 17) - P1305
    ensures AreDigits(Digits(s, 0, 256), 256)
    ensures Digits(s, 0, 256)[16] / 128 == if v < P1305 then 1 else 0
    ensures v >= P1305 ==> Val(Digits(s, 0, 256), 256) == v - P1305
  {
    hide Val, Digits, CarryOut, Pow;
    var d := Digits(s, 0, 256);
    DigitsVal(s, 0, 256);
    DigitsBound(d, 256);
    TopLimb(d[..16], d[16]);
    assert d == d[..16] + [d[16]];
    LimbWeights();
    BorrowOrNot(v, Val(d, 256), CarryOut(s, 0, 256), Val(d[..16], 256), d[16]);
  }

  lemma BorrowOrNot(v: int, d: int, c: int, low: int, top: int)
    requires 0 <= v < 2 * P1305
    requires 0 <= d < 0x100_0000_0000_0000_0000_0000_0000_0000_0000
    requires d + 0x100_0000_0000_0000_0000_0000_0000_0000_0000 * c
          == v + 0x100_0000_0000_0000_0000_0000_0000_0000_0000 - P1305
    requires 0 <= low < 0x1_0000_0000_0000_0000_0000_0000_0000_0000
    requires d == low + 0x1_0000_0000_0000_0000_0000_0000_0000_0000 * top
    ensures top / 128 == if v < P1305 then 1 else 0
    ensures v >= P1305 ==> d == v - P1305
  {
    assert c == if v < P1305 then 0 else 1;
  }

  lemma ClampByte(x: nat)
    requires x < 256
    ensures And(15, x) == x % 16
    ensures And(252, x) == x - x % 4
  {
    assert Pow2(4) == 16;
    AndMask(x, 4);
    assert Pow2(2) == 4 && Pow2(6) == 64;
    AndClearLow(x, 2, 6);
  }

  method ClampKey(k: array<u8>, kPos: nat) returns (r: array<u32>)
    requires kPos + 16 <= k.Length
    ensures fresh(r) && r.Length == 17
    ensures r[..] == Clamped(k[kPos..kPos + 16]) + [0]
  {
    r := new u32[17](_ => 0);
    var j := 0;
    while j < 16
      invariant 0 <= j <= 16
      invariant forall i :: 0 <= i < j ==> r[i] == k[kPos + i]
      invariant r[16] == 0
      invariant k[..] == old(k[..])
    {
      r[j] := k[kPos + j];
      j := j + 1;
    }
    ghost var b := k[kPos..kPos + 16];
    assert r[..] == b + [0];
    Clamp(r, b);
  }

  lemma ClampedIs(b: seq<u8>)
    requires |b| == 16
    ensures Clamped(b) + [0] == (b + [0])[3 := b[3] % 16][4 := b[4] - b[4] % 4][7 := b[7] % 16][8 := b[8] - b[8] % 4]
      [11 := b[11] % 16][12 := b[12] - b[12] % 4][15 := b[15] % 16]
  {
  }

  method Clamp(r: array<u32>, ghost b: seq<u8>)
    requires r.Length == 17 && |b| == 16 && r[..] == b + [0]
    modifies r
    ensures r[..] == Clamped(b) + [0]
  {
    hide Clamped;
    KeepLow4(r, 3);
    ClearLow2(r, 4);
    KeepLow4(r, 7);
    ClearLow2(r, 8);
    ghost var s: seq<int> := r[..];
    assert s == (b + [0])[3 := b[3] % 16][4 := b[4] - b[4] % 4][7 := b[7] % 16][8 := b[8] - b[8] % 4];
    KeepLow4(r, 11);
    ClearLow2(r, 12);
    KeepLow4(r, 15);
    assert r[..] == s[11 := b[11] % 16][12 := b[12] - b[12] % 4][15 := b[15] % 16];
    ClampedIs(b);
  }

  method KeepLow4(r: array<u32>, i: nat)
    requires i < r.Length && r[i] < 256
    modifies r
    ensures r[..] == old(r[..])[i := old(r[i]) % 16]
  {
    ClampByte(r[i]);
    r[i] := And(15, r[i]);
  }

  method ClearLow2(r: array<u32>, i: nat)
    requires i < r.Length && r[i] < 256
    modifies r
    ensures r[..] == old(r[..])[i := old(r[i]) - old(r[i]) % 4]
  {
    ClampByte(r[i]);
    r[i] := And(252, r[i]);
  }

  /** The next block of at most sixteen bytes, with a one after its last byte. */
  method LoadBlock(c: array<u32>, m: array<u8>, pos: nat, n: nat) returns (j: nat)
    requires c.Length == 17 && pos + n <= m.Length && n > 0
    modifies c
    ensures j == if n < 16 then n else 16
    ensures AreDigits(c[..], 256)
    ensures Val(c[..], 256) == Val(m[pos..pos + j] + [1], 256)
  {
    hide Val, Pow;
    j := 0;
    while j < 17
      invariant 0 <= j <= 17
      invariant forall i :: 0 <= i < j ==> c[i] == 0
    {
      c[j] := 0;
      j := j + 1;
    }
    j := 0;
    while j < 16 && j < n
      invariant 0 <= j <= 16 && j <= n
      invariant forall i :: 0 <= i < j ==> c[i] == m[pos + i]
      invariant forall i :: j <= i < 17 ==> c[i] == 0
    {
      c[j] := m[pos + j];
      j := j + 1;
    }
    c[j] := 1;
    ghost var block := m[pos..pos + j] + [1];
    assert c[..] == block + c[j + 1..];
    ValZero(c[j + 1..], 256);
    ValConcat(block, c[j + 1..], 256);
  }

  /** Adding a block and multiplying by r is one step of the accumulator. */
  lemma BlockStep(h: int, n: int, v: int, r: int, h': int)
    requires v == h + n
    requires Cong(h', v * r, P1305)
    ensures h' % P1305 == (h % P1305 + n) * r % P1305
  {
    CongMod(h, P1305);
    CongAdd(h % P1305, h, n, n, P1305);
    CongMul(h % P1305 + n, v, r, r, P1305);
  }

  /** Adds a block to a reduced accumulator; the seventeen limbs do not overflow. */
  lemma AddBlock(h: seq<int>, c: seq<int>, j: nat, block: seq<int>)
    requires Reduced(h) && |c| == 17 && AreDigits(c, 256)
    requires Val(c, 256) == Val(block, 256) && |block| == j + 1 <= 17 && AreDigits(block, 256) && block[j] == 1
    ensures AreDigits(Digits(Sum(h, c), 0, 256), 256)
    ensures Val(Digits(Sum(h, c), 0, 256), 256) == Val(h, 256) + Val(c, 256)
  {
    SumVal(h, c);
    NoOverflow(Sum(h, c));
    BlockBound(block);
    DigitsBound(h, 256);
    DigitsBound(c, 256);
    LimbWeights();
  }

  lemma BlockBound(block: seq<int>)
    requires 1 <= |block| <= 17 && AreDigits(block, 256) && block[|block| - 1] == 1
    ensures Val(block, 256) < 2 * Pow(256, 16)
  {
    var low := block[..|block| - 1];
    assert block == low + [1];
    ValAppend(low, 1, 256);
    DigitsBound(low, 256);
    PowMono(|low|, 16);
  }

  lemma PowMono(m: nat, n: nat)
    requires m <= n
    ensures 0 < Pow(256, m) <= Pow(256, n)
    decreases n, m
  {
    if m < n {
      PowMono(m, n - 1);
    } else if m > 0 {
      PowMono(m - 1, n - 1);
    }
  }

  /** Below 256^17 a full carry pass loses nothing. */
  lemma NoOverflow(s: seq<int>)
    requires |s| == 17
    ensures AreDigits(Digits(s, 0, 256), 256)
    ensures 0 <= Val(s, 256) < Pow(256, 17) ==> Val(Digits(s, 0, 256), 256) == Val(s, 256)
  {
    DigitsVal(s, 0, 256);
    DigitsBound(Digits(s, 0, 256), 256);
    LimbWeights();
  }

  method AbsorbBlock(h: array<u32>, c: array<u32>, m: array<u8>, pos: nat, left: nat, r: array<u32>) returns (j: nat)
    requires h.Length == 17 && c.Length == 17 && r.Length == 17 && h != c && h != r && c != r
    requires pos + left <= m.Length && left > 0
    requires Reduced(h[..]) && AreDigits(r[..], 256)
    modifies h, c
    ensures j == if left < 16 then left else 16
    ensures Reduced(h[..])
    ensures Val(h[..], 256) % P1305
         == (old(Val(h[..], 256)) % P1305 + Val(m[pos..pos + j] + [1], 256)) * Val(r[..], 256) % P1305
  {
    ghost var h0 := Val(h[..], 256);
    j := LoadBlock(c, m, pos, left);
    ghost var block := m[pos..pos + j] + [1];
    AddBlock(h[..], c[..], j, block);
    Add1305(h, c);
    ghost var v := Val(h[..], 256);
    MultiplyReduce(h, r);
    BlockStep(h0, Val(block, 256), v, Val(r[..], 256), Val(h[..], 256));
  }

  /** The loop over the blocks of the message. */
  method Absorb(m: array<u8>, mPos: nat, n: nat, r: array<u32>) returns (h: array<u32>)
    requires mPos + n <= m.Length
    requires r.Length == 17 && AreDigits(r[..], 256)
    ensures fresh(h) && h.Length == 17 && Reduced(h[..])
    ensures Val(r[..], 256) >= 0
    ensures Val(h[..], 256) % P1305 == Accumulate(0, m[mPos..mPos + n], Val(r[..], 256))
  {
    h := new u32[17](_ => 0);
    var c := new u32[17];
    var pos, left := mPos, n;
    ghost var msg, rv := m[mPos..mPos + n], Val(r[..], 256);
    DigitsBound(r[..], 256);
    ValZero(h[..], 256);
    assert m[pos..pos + left] == msg;
    while left > 0
      invariant fresh(h) && fresh(c) && h.Length == 17 && c.Length == 17 && h != c
      invariant mPos <= pos && 0 <= left && pos + left == mPos + n
      invariant Reduced(h[..])
      invariant r[..] == old(r[..]) && m[..] == old(m[..])
      invariant Accumulate(0, msg, rv) == Accumulate(Val(h[..], 256) % P1305, m[pos..pos + left], rv)
    {
      ghost var rest := m[pos..pos + left];
      var j := AbsorbBlock(h, c, m, pos, left, r);
      assert rest[..j] == m[pos..pos + j];
      pos := pos + j;
      left := left - j;
      assert rest[j..] == m[pos..pos + left];
    }
  }

  method CryptoOnetimeauth(out: array<u8>, oPos: nat, m: array<u8>, mPos: nat, n: nat,
                           k: array<u8>, kPos: nat, wordBits: nat)
    requires oPos + 16 <= out.Length && mPos + n <= m.Length && kPos + 32 <= k.Length
    requires wordBits >= 32
    modifies out
    ensures out[..] == old(out[..oPos])
                       + Tag(old(m[mPos..mPos + n]), old(k[kPos..kPos + 32]))
                       + old(out[oPos + 16..])
  {
    hide Accumulate, Clamped, LeBytes, Val;
    ghost var key := k[kPos..kPos + 32];
    var r := ClampKey(k, kPos);
    assert key[..16] == k[kPos..kPos + 16];
    ValAppend(Clamped(key[..16]), 0, 256);
    var h := Absorb(m, mPos, n, r);
    ghost var acc := Val(h[..], 256) % P1305;
    Freeze(h, wordBits);
    AddPad(h, k, kPos + 16);
    assert key[16..] == k[kPos + 16..kPos + 32];
    LeBytesVal(h[..], 16);
    StoreTag(out, oPos, h);
  }

  method StoreTag(out: array<u8>, oPos: nat, h: array<u32>)
    requires oPos + 16 <= out.Length && h.Length == 17 && AreDigits(h[..], 256)
    modifies out
    ensures out[..] == old(out[..oPos]) + h[..16] + old(out[oPos + 16..])
  {
    var j := 0;
    while j < 16
      invariant 0 <= j <= 16
      invariant h[..] == old(h[..])
      invariant forall i :: 0 <= i < j ==> out[oPos + i] == h[i]
      invariant forall i :: 0 <= i < oPos || oPos + j <= i < out.Length ==> out[i] == old(out[i])
    {
      assert h[j] == h[..][j];
      out[oPos + j] := h[j];
      j := j + 1;
    }
  }

  /** Adds the second half of the key to the frozen accumulator. */
  method AddPad(h: array<u32>, k: array<u8>, kPos: nat)
    requires h.Length == 17 && kPos + 16 <= k.Length
    requires AreDigits(h[..], 256) && Val(h[..], 256) < P1305
    modifies h
    ensures AreDigits(h[..], 256)
    ensures Val(h[..], 256) == old(Val(h[..], 256)) + Val(k[kPos..kPos + 16], 256)
  {
    var c := new u32[17](_ => 0);
    var j := 0;
    while j < 16
      invariant 0 <= j <= 16
      invariant forall i :: 0 <= i < j ==> c[i] == k[kPos + i]
      invariant c[16] == 0
      invariant h[..] == old(h[..])
    {
      c[j] := k[kPos + j];
      j := j + 1;
    }
    ghost var pad := k[kPos..kPos + 16];
    assert c[..] == pad + [0];
    ValAppend(pad, 0, 256);
    DigitsBound(pad, 256);
    DigitsBound(h[..], 256);
    SumVal(h[..], c[..]);
    NoOverflow(Sum(h[..], c[..]));
    LimbWeights();
    Add1305(h, c);
  }
}