/** The one-time authenticator as section 2.5 of RFC 8439 defines it, over unbounded integers. */
module Poly1305Spec {
  import opened Arith
  import opened Bits
  import opened Limbs

  /** 2^130 - 5 */
  const P1305: nat := 0x3_ffff_ffff_ffff_ffff_ffff_ffff_ffff_fffb

  function LeBytes(n: nat, len: nat): (b: seq<u8>)
    ensures |b| == len
  {
    if len == 0 then [] else [n % 256] + LeBytes(n / 256, len - 1)
  }

  /** Bytes 3, 7, 11, 15 keep four low bits; bytes 4, 8, 12 lose two low bits. */
  function Clamped(k: seq<u8>): (r: seq<u8>)
    requires |k| == 16
    ensures |r| == 16
  {
    seq(16, i requires 0 <= i < 16 =>
      if i % 4 == 3 then k[i] % 16
      else if i % 4 == 0 && i > 0 then k[i] - k[i] % 4
      else k[i])
  }

  function Accumulate(acc: nat, m: seq<u8>, r: nat): (res: nat)
    decreases |m|
  {
    if m == [] then acc
    else
      var n := if |m| < 16 then |m| else 16;
      BlockNat(m[..n]);
      Accumulate((acc + Val(m[..n] + [1], 256)) * r % P1305, m[n..], r)
  }

  function Tag(m: seq<u8>, key: seq<u8>): (t: seq<u8>)
    requires |key| == 32
    ensures |t| == 16
  {
    DigitsBound(Clamped(key[..16]), 256);
    DigitsBound(key[16..], 256);
    LeBytes(Accumulate(0, m, Val(Clamped(key[..16]), 256)) + Val(key[16..], 256), 16)
  }

  lemma BlockNat(b: seq<u8>)
    ensures Val(b + [1], 256) >= 0
  {
    DigitsBound(b + [1], 256);
  }

  /** The little-endian bytes of a number in digits are its low digits. */
  lemma {:induction false} LeBytesVal(s: seq<int>, len: nat)
    requires AreDigits(s, 256) && len <= |s|
    ensures Val(s, 256) >= 0
    ensures LeBytes(Val(s, 256), len) == s[..len]
  {
    DigitsBound(s, 256);
    if len > 0 {
      LeBytesVal(s[1..], len - 1);
      DivModUnique(Val(s, 256), 256, Val(s[1..], 256), s[0]);
      assert s[..len] == [s[0]] + s[1..][..len - 1];
    }
  }
}
