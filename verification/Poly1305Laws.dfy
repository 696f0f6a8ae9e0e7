/**
  What the authenticator of Poly1305Spec computes, in other terms: a polynomial
  in the masked half of the key, the empty message, and the vector of the standard.
*/
module Poly1305Laws {
  import opened Arith
  import opened Bits
  import opened Limbs
  import opened Poly1305Spec
  import Poly1305

  // ---------- the first half of the key ----------

  /** 0x0ffffffc0ffffffc0ffffffc0fffffff */
  const CLAMP: nat := 0x0fff_fffc_0fff_fffc_0fff_fffc_0fff_ffff

  function Mask(): (m: seq<int>)
    ensures |m| == 16 && AreDigits(m, 256)
  {
    [255, 255, 255, 15, 252, 255, 255, 15, 252, 255, 255, 15, 252, 255, 255, 15]
  }

  /** `&` of two numbers, bit k and above apart from the low k bits. */
  lemma {:induction false} AndSplit(a: nat, u: nat, b: nat, v: nat, k: nat)
    requires a < Pow2(k) && b < Pow2(k)
    ensures And(a + Pow2(k) * u, b + Pow2(k) * v) == And(a, b) + Pow2(k) * And(u, v)
  {
    hide And;
    if k == 0 {
      assert Pow2(0) == 1;
      AndZero(0);
    } else {
      assert Pow2(k) == 2 * Pow2(k - 1);
      hide Pow2;
      var p := Pow2(k - 1);
      var x, y := a + 2 * p * u, b + 2 * p * v;
      AndSplit(a / 2, u, b / 2, v, k - 1);
      HalfSum(a, p, u);
      HalfSum(b, p, v);
      AndHalves(x, y);
      AndHalves(a, b);
      assert 2 * (p * And(u, v)) == 2 * p * And(u, v);
    }
  }

  lemma HalfSum(a: nat, p: nat, u: nat)
    ensures (a + 2 * p * u) / 2 == a / 2 + p * u && (a + 2 * p * u) % 2 == a % 2
  {
    assert 2 * p * u == 2 * (p * u);
  }

  lemma AndHalves(x: nat, y: nat)
    ensures And(x, y) == (if x % 2 == 1 && y % 2 == 1 then 1 else 0) + 2 * And(x / 2, y / 2)
  {
  }

  function AndBytes(x: seq<int>, y: seq<int>): (r: seq<int>)
    requires |x| == |y| && AreDigits(x, 256) && AreDigits(y, 256)
    ensures |r| == |x|
  {
    seq(|x|, i requires 0 <= i < |x| => And(x[i], y[i]))
  }

  lemma AndTail(x: seq<int>, y: seq<int>)
    requires |x| == |y| > 0 && AreDigits(x, 256) && AreDigits(y, 256)
    ensures AndBytes(x, y)[0] == And(x[0], y[0]) && AndBytes(x, y)[1..] == AndBytes(x[1..], y[1..])
  {
    hide And;
  }

  /** `&` of two numbers is `&` of their bytes. */
  lemma {:induction false} AndOfBytes(x: seq<int>, y: seq<int>)
    requires |x| == |y| && AreDigits(x, 256) && AreDigits(y, 256)
    ensures Val(x, 256) >= 0 && Val(y, 256) >= 0
    ensures And(Val(x, 256), Val(y, 256)) == Val(AndBytes(x, y), 256)
  {
    hide And, AndBytes, Pow2;
    DigitsBound(x, 256);
    DigitsBound(y, 256);
    if x == [] {
      AndZero(0);
    } else {
      DigitsBound(x[1..], 256);
      DigitsBound(y[1..], 256);
      AndOfBytes(x[1..], y[1..]);
      WordSizes();
      AndSplit(x[0], Val(x[1..], 256), y[0], Val(y[1..], 256), 8);
      AndTail(x, y);
    }
  }

  lemma MaskByte(i: nat)
    requires i < 16
    ensures Mask()[i] == if i % 4 == 3 then 15 else if i % 4 == 0 && i > 0 then 252 else 255
  {
  }

  lemma ClampedByte(k: seq<u8>, i: nat)
    requires |k| == 16 && i < 16
    ensures Clamped(k)[i] == if i % 4 == 3 then k[i] % 16 else if i % 4 == 0 && i > 0 then k[i] - k[i] % 4 else k[i]
  {
  }

  lemma ClampBits(x: u8)
    ensures And(15, x) == x % 16 && And(252, x) == x - x % 4 && And(255, x) == x
  {
    hide And;
    Poly1305.ClampByte(x);
    WordSizes();
    AndMask(x, 8);
  }

  lemma AndByte(x: seq<int>, y: seq<int>, i: nat)
    requires |x| == |y| && AreDigits(x, 256) && AreDigits(y, 256) && i < |x|
    ensures AndBytes(x, y)[i] == And(x[i], y[i])
  {
    hide And;
  }

  lemma ClampedIsMasked(k: seq<u8>)
    requires |k| == 16
    ensures Clamped(k) == AndBytes(Mask(), k)
  {
    hide And, AndBytes, Clamped, Mask;
    forall i | 0 <= i < 16
      ensures Clamped(k)[i] == AndBytes(Mask(), k)[i]
    {
      MaskByte(i);
      ClampedByte(k, i);
      ClampBits(k[i]);
      AndByte(Mask(), k, i);
    }
  }

  /** The value of sixteen bytes, written out. */
  lemma ValOf16(b: seq<int>)
    requires |b| == 16
    ensures Val(b, 256) == Four(b[0], b[1], b[2], b[3])
                           + 0x1_0000_0000 * Four(b[4], b[5], b[6], b[7])
                           + 0x1_0000_0000_0000_0000 * Four(b[8], b[9], b[10], b[11])
                           + 0x1_0000_0000_0000_0000_0000_0000 * Four(b[12], b[13], b[14], b[15])
  {
    ValOf4(b[..4]);
    ValOf4(b[4..8]);
    ValOf4(b[8..12]);
    ValOf4(b[12..]);
    assert Pow(256, 4) == 0x1_0000_0000;
    ValSplit(b, 4, 256);
    ValSplit(b[4..], 4, 256);
    ValSplit(b[8..], 4, 256);
    assert b[4..][..4] == b[4..8] && b[4..][4..] == b[8..] && b[8..][..4] == b[8..12] && b[8..][4..] == b[12..];
  }

  function Four(b0: int, b1: int, b2: int, b3: int): (r: int) {
    b0 + 0x100 * b1 + 0x1_0000 * b2 + 0x100_0000 * b3
  }

  lemma ValOf4(b: seq<int>)
    requires |b| == 4
    ensures Val(b, 256) == Four(b[0], b[1], b[2], b[3])
  {
    assert b[1..][1..][1..][1..] == [];
    assert Val(b[1..][1..][1..], 256) == b[3] + 256 * Val([], 256);
    assert Val(b[1..][1..], 256) == b[2] + 256 * Val(b[1..][1..][1..], 256);
    assert Val(b[1..], 256) == b[1] + 256 * Val(b[1..][1..], 256);
  }

  lemma MaskIs()
    ensures Val(Mask(), 256) == CLAMP
  {
    hide Val;
    ValOf16(Mask());
  }

  /** The multiplier is the first half of the key, masked as a number. */
  lemma ClampIsMask(k: seq<u8>)
    requires |k| == 16
    ensures Val(k, 256) >= 0 && Val(Clamped(k), 256) == And(CLAMP, Val(k, 256))
  {
    hide And, Clamped, Val;
    MaskIs();
    AndOfBytes(Mask(), k);
    ClampedIsMasked(k);
  }

  // ---------- the polynomial ----------

  function Blocks(m: seq<u8>): (n: nat) {
    (|m| + 15) / 16
  }

  function BlockAt(m: seq<u8>, i: nat): (b: seq<u8>)
    requires i < Blocks(m)
  {
    m[16 * i..if 16 * i + 16 <= |m| then 16 * i + 16 else |m|]
  }

  /** From block i on: the block and a one above it, times the power of r for the blocks left. */
  function WeightedSum(m: seq<u8>, r: nat, i: nat): (s: int)
    decreases Blocks(m) - i
  {
    if i >= Blocks(m) then 0
    else (Val(BlockAt(m, i), 256) + Pow(256, |BlockAt(m, i)|)) * Pow(r, Blocks(m) - i) + WeightedSum(m, r, i + 1)
  }

  lemma AccumulateStep(acc: nat, m: seq<u8>, i: nat, r: nat)
    requires i < Blocks(m)
    ensures Val(BlockAt(m, i) + [1], 256) >= 0
    ensures Accumulate(acc, m[16 * i..], r)
         == Accumulate((acc + Val(BlockAt(m, i) + [1], 256)) * r % P1305,
                       m[if 16 * i + 16 <= |m| then 16 * (i + 1) else |m|..], r)
  {
    BlockNat(BlockAt(m, i));
    var rest := m[16 * i..];
    var n := if |rest| < 16 then |rest| else 16;
    assert rest[..n] == BlockAt(m, i);
    assert rest[n..] == m[if 16 * i + 16 <= |m| then 16 * (i + 1) else |m|..];
  }

  /** The accumulator is the polynomial, whatever it begins with. */
  lemma {:induction false} AccumulateIs(acc: nat, m: seq<u8>, i: nat, r: nat)
    requires i <= Blocks(m)
    ensures Cong(Accumulate(acc, m[if 16 * i <= |m| then 16 * i else |m|..], r),
                 acc * Pow(r, Blocks(m) - i) + WeightedSum(m, r, i), P1305)
    ensures i < Blocks(m) ==> Accumulate(acc, m[16 * i..], r) < P1305
    decreases Blocks(m) - i
  {
    hide Accumulate, Val, BlockAt;
    var n := Blocks(m) - i;
    if n == 0 {
      NothingLeft(acc, r);
      assert m[if 16 * i <= |m| then 16 * i else |m|..] == [];
    } else {
      var v := Val(BlockAt(m, i) + [1], 256);
      AccumulateStep(acc, m, i, r);
      ValAppend(BlockAt(m, i), 1, 256);
      var acc' := (acc + v) * r % P1305;
      AccumulateIs(acc', m, i + 1, r);
      if i + 1 == Blocks(m) {
        NothingLeft(acc', r);
        assert m[if 16 * (i + 1) <= |m| then 16 * (i + 1) else |m|..] == [];
      }
      Horner(acc, v, r, Pow(r, n - 1), WeightedSum(m, r, i + 1), acc');
    }
  }

  lemma NothingLeft(acc: nat, r: nat)
    ensures Accumulate(acc, [], r) == acc
  {
  }

  lemma Horner(acc: int, v: int, r: int, p: int, w: int, acc': int)
    requires acc' == (acc + v) * r % P1305
    ensures Cong(acc' * p + w, acc * (r * p) + (v * (r * p) + w), P1305)
  {
    CongMod((acc + v) * r, P1305);
    CongMul(acc', (acc + v) * r, p, p, P1305);
    CongAdd(acc' * p, (acc + v) * r * p, w, w, P1305);
    assert (acc + v) * r * p == acc * (r * p) + v * (r * p) by {
      MulAssoc(acc + v, r, p);
      MulDistr(r * p, acc, v);
    }
  }

  /** Section 2.5 of RFC 8439 as a formula: the polynomial at the masked half, plus the other half. */
  lemma TagIs(m: seq<u8>, key: seq<u8>)
    requires |key| == 32
    ensures Val(key[..16], 256) >= 0 && Val(key[16..], 256) >= 0
    ensures var r := And(CLAMP, Val(key[..16], 256));
            Tag(m, key) == LeBytes(WeightedSum(m, r, 0) % P1305 + Val(key[16..], 256), 16)
  {
    hide And, Accumulate, WeightedSum, Clamped, LeBytes, Val, Cong, Blocks;
    ClampIsMask(key[..16]);
    DigitsBound(key[16..], 256);
    var r := And(CLAMP, Val(key[..16], 256));
    AccumulateIs(0, m, 0, r);
    assert m[0..] == m;
    CongMeansSame(Accumulate(0, m, r), WeightedSum(m, r, 0), m, r);
  }

  lemma CongMeansSame(a: nat, s: int, m: seq<u8>, r: nat)
    requires Cong(a, 0 * Pow(r, Blocks(m)) + s, P1305) && a == Accumulate(0, m, r)
    requires 0 < Blocks(m) ==> a < P1305
    ensures a == s % P1305
  {
    if Blocks(m) == 0 {
      NothingLeft(0, r);
      assert m == [];
    }
    CongMod(s, P1305);
    CongSmall(a, s, P1305);
  }

  lemma CongSmall(a: int, s: int, p: int)
    requires p > 0 && 0 <= a < p && Cong(a, s, p)
    ensures a == s % p
  {
  }

  /** The empty message is answered with the second half of the key. */
  lemma EmptyTag(key: seq<u8>)
    requires |key| == 32
    ensures Tag([], key) == key[16..]
  {
    LeBytesVal(key[16..], 16);
    assert key[16..][..16] == key[16..];
  }

  // ---------- the vector of section 2.5.2 of RFC 8439 ----------

  const RFC_MULTIPLIER: nat := 0x806_d540_0e52_447c_036d_5554_08be_d685
  const RFC_R: seq<u8> := [133, 214, 190, 120, 87, 85, 109, 51, 127, 68, 82, 254, 66, 213, 6, 168]
  const RFC_S: seq<u8> := [1, 3, 128, 138, 251, 13, 178, 253, 74, 191, 246, 175, 65, 73, 245, 27]

  /** "Cryptographic Forum Research Group" */
  const RFC_TEXT_1: seq<u8> := [67, 114, 121, 112, 116, 111, 103, 114, 97, 112, 104, 105, 99, 32, 70, 111]
  const RFC_TEXT_2: seq<u8> := [114, 117, 109, 32, 82, 101, 115, 101, 97, 114, 99, 104, 32, 71, 114, 111]
  const RFC_TEXT_3: seq<u8> := [117, 112]

  /** a8:06:1d:c1:30:51:36:c6:c2:2b:8b:af:0c:01:27:a9 */
  const RFC_TAG: seq<u8> := [168, 6, 29, 193, 48, 81, 54, 198, 194, 43, 139, 175, 12, 1, 39, 169]

  lemma ClampedFour(k: seq<u8>, i: nat)
    requires |k| == 16 && i % 4 == 0 && i < 16
    ensures var c := Clamped(k);
            && c[i] == (if i > 0 then k[i] - k[i] % 4 else k[i]) && c[i + 1] == k[i + 1] && c[i + 2] == k[i + 2]
            && c[i + 3] == k[i + 3] % 16
  {
  }

  lemma RfcMultiplier()
    ensures Val(Clamped(RFC_R), 256) == RFC_MULTIPLIER
  {
    hide Val, Clamped;
    ClampedFour(RFC_R, 0);
    ClampedFour(RFC_R, 4);
    ClampedFour(RFC_R, 8);
    ClampedFour(RFC_R, 12);
    ValOf16(Clamped(RFC_R));
  }

  lemma Pow16()
    ensures Pow(256, 16) == 0x1_0000_0000_0000_0000_0000_0000_0000_0000
  {
    assert Pow(256, 4) == 0x1_0000_0000;
    hide Pow;
    PowAdd(256, 4, 4);
    PowAdd(256, 8, 8);
  }

  lemma FullBlock(b: seq<u8>, v: int)
    requires |b| == 16 && Val(b, 256) == v
    ensures Val(b + [1], 256) == v + 0x1_0000_0000_0000_0000_0000_0000_0000_0000
  {
    hide Val;
    Pow16();
    ValAppend(b, 1, 256);
  }

  lemma RfcBlocks()
    ensures Val(RFC_TEXT_1 + [1], 256) == 0x1_6f46_2063_6968_7061_7267_6f74_7079_7243
    ensures Val(RFC_TEXT_2 + [1], 256) == 0x1_6f72_4720_6863_7261_6573_6552_206d_7572
    ensures Val(RFC_TEXT_3 + [1], 256) == 0x1_7075
  {
    RfcShort();
    hide Val;
    ValOf16(RFC_TEXT_1);
    FullBlock(RFC_TEXT_1, 0x6f46_2063_6968_7061_7267_6f74_7079_7243);
    ValOf16(RFC_TEXT_2);
    FullBlock(RFC_TEXT_2, 0x6f72_4720_6863_7261_6573_6552_206d_7572);
  }

  lemma RfcShort()
    ensures Val(RFC_TEXT_3 + [1], 256) == 0x1_7075
  {
    var b := RFC_TEXT_3 + [1];
    assert b == [117, 112, 1];
    assert Val(b[1..][1..][1..], 256) == 0;
    assert Val(b[1..][1..], 256) == 1 + 256 * 0;
    assert Val(b[1..], 256) == 112 + 256 * 1;
  }

  /** The authenticator of the standard's example. */
  lemma RfcTag()
    ensures Tag(RFC_TEXT_1 + RFC_TEXT_2 + RFC_TEXT_3, RFC_R + RFC_S) == RFC_TAG
  {
    hide Val, Clamped, LeBytes, Accumulate;
    var text, key := RFC_TEXT_1 + RFC_TEXT_2 + RFC_TEXT_3, RFC_R + RFC_S;
    assert key[..16] == RFC_R && key[16..] == RFC_S;
    assert text[..16] == RFC_TEXT_1 && text[16..] == RFC_TEXT_2 + RFC_TEXT_3;
    RfcMultiplier();
    RfcSecond();
    RfcSum();
    RfcFirst(text);
  }

  lemma RfcFirst(text: seq<u8>)
    requires |text| >= 16 && text[..16] == RFC_TEXT_1 && text[16..] == RFC_TEXT_2 + RFC_TEXT_3
    ensures Accumulate(0, text, RFC_MULTIPLIER)
         == Accumulate(0x2_c88c_7784_9d64_ae91_47dd_eb88_e69c_83fc, RFC_TEXT_2 + RFC_TEXT_3, RFC_MULTIPLIER)
  {
    hide Val, Accumulate;
    RfcBlocks();
    AccumulateBlock(0, text, RFC_MULTIPLIER);
  }

  lemma RfcSecond()
    ensures Accumulate(0x2_c88c_7784_9d64_ae91_47dd_eb88_e69c_83fc, RFC_TEXT_2 + RFC_TEXT_3, RFC_MULTIPLIER)
         == 0x2_8d31_b7ca_ff94_6c77_c884_4335_369d_03a7
  {
    hide Val, Accumulate;
    var m := RFC_TEXT_2 + RFC_TEXT_3;
    assert m[..16] == RFC_TEXT_2 && m[16..] == RFC_TEXT_3;
    RfcBlocks();
    AccumulateBlock(0x2_c88c_7784_9d64_ae91_47dd_eb88_e69c_83fc, m, RFC_MULTIPLIER);
    AccumulateLast(0x2_d8ad_af23_b033_7fa7_cccf_b4ea_344b_30de, RFC_TEXT_3, RFC_MULTIPLIER);
  }

  lemma AccumulateBlock(acc: nat, m: seq<u8>, r: nat)
    requires |m| >= 16
    ensures Val(m[..16] + [1], 256) >= 0
    ensures Accumulate(acc, m, r) == Accumulate((acc + Val(m[..16] + [1], 256)) * r % P1305, m[16..], r)
  {
    BlockNat(m[..16]);
  }

  lemma AccumulateLast(acc: nat, m: seq<u8>, r: nat)
    requires 0 < |m| < 16
    ensures Val(m + [1], 256) >= 0
    ensures Accumulate(acc, m, r) == (acc + Val(m + [1], 256)) * r % P1305
  {
    BlockNat(m);
    assert m[..|m|] == m && m[|m|..] == [];
  }

  lemma RfcSum()
    ensures Val(RFC_S, 256) == 0x1bf5_4941_aff6_bf4a_fdb2_0dfb_8a80_0301
    ensures LeBytes(0x2_a927_010c_af8b_2bc2_c636_5130_c11d_06a8, 16) == RFC_TAG
  {
    hide Val, LeBytes;
    ValOf16(RFC_S);
    ValOf16(RFC_TAG);
    Pow16();
    var t := RFC_TAG + [2];
    ValAppend(RFC_TAG, 2, 256);
    LeBytesVal(t, 16);
    assert t[..16] == RFC_TAG;
  }
}
