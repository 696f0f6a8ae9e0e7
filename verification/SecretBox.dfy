/** The stream cipher and the secret box of tweetnacl.c, on buffers and offsets into them. */
module SecretBox {
  import opened Arith
  import opened Bits
  import opened Limbs
  import opened Poly1305Spec
  import opened Poly1305
  import opened Salsa20Spec
  import opened SalsaCore
  import opened StreamSpec

  /** What the cipher reads: zeros when `m` is a null pointer. */
  ghost function Plain(m: array?<u8>, mPos: nat, len: nat): (s: seq<u8>)
    requires m != null ==> mPos + len <= m.Length
    reads m
    ensures |s| == len
  {
    if m == null then Zeros(len) else m[mPos..mPos + len]
  }

  /** Adding with carry is adding to the number: the counter bytes count blocks. */
  lemma {:induction false} CountUp(n: nat, carry: nat, len: nat)
    ensures Digits(LeBytes(n, len), carry, 256) == LeBytes(n + carry, len)
  {
    if len > 0 {
      CountUp(n / 256, (n % 256 + carry) / 256, len - 1);
      assert LeBytes(n, len)[1..] == LeBytes(n / 256, len - 1);
      assert (n + carry) / 256 == n / 256 + (n % 256 + carry) / 256;
    }
  }

  method NextCounter(z: array<u8>, ghost i: nat)
    requires z.Length == 16 && z[8..] == LeBytes(i, 8)
    modifies z
    ensures z[..8] == old(z[..8]) && z[8..] == LeBytes(i + 1, 8)
  {
    hide LeBytes;
    ghost var s: seq<int> := z[8..];
    CountUp(i, 1, 8);
    var u: u32, j := 1, 8;
    assert CarryOut(s[..0], 1, 256) == 1;
    while j < 16
      invariant 8 <= j <= 16 && u <= 1
      invariant u == CarryOut(s[..j - 8], 1, 256)
      invariant z[8..j] == Digits(s, 1, 256)[..j - 8]
      invariant forall k :: 0 <= k < 8 || j <= k < 16 ==> z[k] == old(z[k])
    {
      DigitsAt(s, 1, 256, j - 8);
      assert z[j] == s[j - 8];
      u := u + z[j];
      z[j] := u % 256;
      u := u / 256;
      assert z[8..j + 1] == z[8..j] + [z[j]];
      j := j + 1;
    }
    assert z[8..] == z[8..16];
  }

  /** `c[i] = (m ? m[i] : 0) ^ x[i]` for one block or the rest of one. */
  method XorBlock(c: array<u8>, cPos: nat, m: array?<u8>, mPos: nat, len: nat, x: array<u8>)
    requires cPos + len <= c.Length && len <= x.Length && x != c && x != m
    requires m != null ==> mPos + len <= m.Length
    requires m == c ==> mPos == cPos
    modifies c
    ensures c[..] == Put(old(c[..]), cPos, XorBytes(old(Plain(m, mPos, len)), x[..len]))
  {
    ghost var p := Plain(m, mPos, len);
    var i := 0;
    while i < len
      invariant 0 <= i <= len
      invariant x[..] == old(x[..])
      invariant forall k :: 0 <= k < i ==> c[cPos + k] == XorByte(p[k], x[k])
      invariant forall k :: 0 <= k < cPos || cPos + i <= k < c.Length ==> c[k] == old(c[k])
      invariant m != null && m != c ==> m[..] == old(m[..])
    {
      assert (if m != null then m[mPos + i] else 0) == p[i];
      c[cPos + i] := XorByte(if m != null then m[mPos + i] else 0, x[i]);
      i := i + 1;
    }
  }

  /** The keystream grows by one block, or the start of one, at a time. */
  lemma StreamExtend(p: seq<u8>, k: Key, n: seq<u8>, pos: nat, len: nat)
    requires |n| == 8 && pos % 64 == 0 && len <= 64 && pos + len <= |p|
    ensures XorBytes(p[..pos + len], Keystream(k, n, pos + len))
         == XorBytes(p[..pos], Keystream(k, n, pos))
            + XorBytes(p[pos..pos + len], Block(k, n, pos / 64)[..len])
  {
    hide Block, XorByte;
    forall i | pos <= i < pos + len
      ensures KeyByte(k, n, i) == Block(k, n, pos / 64)[i - pos]
    {
      DivModUnique(i, 64, pos / 64, i - pos);
    }
  }

  /** Encrypts one block, or the last part of one, of the message. */
  method CipherBlock(c: array<u8>, cPos: nat, m: array?<u8>, mPos: nat, len: nat,
                     z: array<u8>, k: array<u8>, x: array<u8>, sigma: array<u8>, wordBits: nat,
                     ghost n: seq<u8>, ghost i: nat)
    requires cPos + len <= c.Length && len <= 64 && x.Length == 64 && sigma.Length == 16
    requires m != null ==> mPos + len <= m.Length
    requires m == c ==> mPos == cPos
    requires x != c && x != m && x != z && x != k && x != sigma && c != k && c != z && c != sigma
    requires k.Length == 32 && z.Length == 16 && |n| == 8 && z[..] == n + LeBytes(i, 8) && sigma[..] == SIGMA
    requires wordBits >= 32
    modifies c, x
    ensures c[..] == Put(old(c[..]), cPos, XorBytes(old(Plain(m, mPos, len)), Block(k[..], n, i)[..len]))
  {
    hide Salsa20, XorBytes, Put;
    CryptoCoreSalsa20(x, z, 0, k, sigma, wordBits);
    assert z[0..16] == z[..];
    assert x[..] == Block(k[..], n, i);
    assert c[..] == old(c[..]);
    assert Plain(m, mPos, len) == old(Plain(m, mPos, len));
    XorBlock(c, cPos, m, mPos, len, x);
  }

  ghost function Ciphered(c: seq<u8>, cPos: nat, p: seq<u8>, k: Key, n: seq<u8>, pos: nat): (r: seq<u8>)
    requires cPos + pos <= |c| && pos <= |p| && |n| == 8
  {
    Put(c, cPos, XorBytes(p[..pos], Keystream(k, n, pos)))
  }

  lemma CipheredStep(
      c0: seq<u8>, c: seq<u8>, c': seq<u8>, cPos: nat, p: seq<u8>, k: Key, n: seq<u8>, pos: nat, len: nat)
    requires |n| == 8 && pos % 64 == 0 && len <= 64 && pos + len <= |p| && cPos + pos + len <= |c0|
    requires c == Ciphered(c0, cPos, p, k, n, pos)
    requires c' == Put(c, cPos + pos, XorBytes(p[pos..pos + len], Block(k, n, pos / 64)[..len]))
    ensures c' == Ciphered(c0, cPos, p, k, n, pos + len)
  {
    hide XorBytes, Keystream, Block, Put;
    StreamExtend(p, k, n, pos, len);
    PutPut(c0, cPos, XorBytes(p[..pos], Keystream(k, n, pos)),
           XorBytes(p[pos..pos + len], Block(k, n, pos / 64)[..len]));
  }

  /** One turn of the loop: the next `len` bytes, with the block number in z. */
  method CipherStep(c: array<u8>, cPos: nat, m: array?<u8>, mPos: nat, b: nat, pos: nat, len: nat,
                    z: array<u8>, k: array<u8>, x: array<u8>, sigma: array<u8>, wordBits: nat,
                    ghost c0: seq<u8>, ghost p: seq<u8>, ghost n: seq<u8>)
    requires cPos + b <= c.Length && pos + len <= b && len <= 64 && pos % 64 == 0
    requires x.Length == 64 && sigma.Length == 16 && k.Length == 32 && z.Length == 16 && |n| == 8
    requires m != null ==> mPos + b <= m.Length
    requires m == c ==> mPos == cPos
    requires x != c && x != m && x != z && x != k && x != sigma && c != k && c != z && c != sigma
    requires z[..] == n + LeBytes(pos / 64, 8) && sigma[..] == SIGMA && wordBits >= 32
    requires |p| == b && |c0| == c.Length && c[..] == Ciphered(c0, cPos, p, k[..], n, pos)
    requires StillThere(m, mPos, c, cPos, c0, p)
    modifies c, x
    ensures c[..] == Ciphered(c0, cPos, p, k[..], n, pos + len)
    ensures StillThere(m, mPos, c, cPos, c0, p)
  {
    hide XorBytes, Keystream, Block, Put;
    PlainRest(m, mPos, b, pos, len, p, c, cPos, c0, k[..], n);
    ghost var before := c[..];
    CipherBlock(c, cPos + pos, m, mPos + pos, len, z, k, x, sigma, wordBits, n, pos / 64);
    hide Ciphered;
    CipheredStep(c0, before, c[..], cPos, p, k[..], n, pos, len);
  }

  /** p is what the message was at the start. */
  ghost predicate StillThere(m: array?<u8>, mPos: nat, c: array<u8>, cPos: nat, c0: seq<u8>, p: seq<u8>)
    requires m != null ==> mPos + |p| <= m.Length
    requires cPos + |p| <= |c0|
    reads m
  {
    p == if m == null then Zeros(|p|) else if m == c then c0[cPos..cPos + |p|] else m[mPos..mPos + |p|]
  }

  method CryptoStreamSalsa20Xor(c: array<u8>, cPos: nat, m: array?<u8>, mPos: nat, b: nat,
                                n: array<u8>, nPos: nat, k: array<u8>, wordBits: nat)
    requires cPos + b <= c.Length && nPos + 8 <= n.Length && k.Length == 32 && c != k
    requires m != null ==> mPos + b <= m.Length
    requires m == c ==> mPos == cPos
    requires wordBits >= 32
    modifies c
    ensures c[..] == Ciphered(old(c[..]), cPos, old(Plain(m, mPos, b)), k[..], old(n[nPos..nPos + 8]), b)
  {
    hide XorBytes, Keystream, Block, Ciphered, LeBytes;
    ghost var p, nonce := Plain(m, mPos, b), n[nPos..nPos + 8];
    if b == 0 {
      CipheredNothing(c[..], cPos, p, k[..], nonce);
      return;
    }
    var z := LoadNonce(n, nPos);
    assert n[..] == old(n[..]);
    CipherLoop(c, cPos, m, mPos, b, z, k, wordBits, p, nonce);
  }

  method CipherLoop(c: array<u8>, cPos: nat, m: array?<u8>, mPos: nat, b: nat,
                    z: array<u8>, k: array<u8>, wordBits: nat, ghost p: seq<u8>, ghost n: seq<u8>)
    requires cPos + b <= c.Length && k.Length == 32 && c != k && z.Length == 16 && z != c && |n| == 8
    requires m != null ==> mPos + b <= m.Length
    requires m == c ==> mPos == cPos
    requires wordBits >= 32 && z != k && z != m
    requires p == Plain(m, mPos, b) && z[..] == n + LeBytes(0, 8)
    modifies c, z
    ensures c[..] == Ciphered(old(c[..]), cPos, p, k[..], n, b)
  {
    hide XorBytes, Keystream, Block, Ciphered, LeBytes;
    ghost var c0 := c[..];
    var x := new u8[64];
    var sigma := new u8[16](i requires 0 <= i < 16 => SIGMA[i]);
    assert sigma[..] == SIGMA;
    var pos := 0;
    CipheredNothing(c[..], cPos, p, k[..], n);
    assert StillThere(m, mPos, c, cPos, c0, p);
    while b - pos >= 64
      invariant 0 <= pos <= b && pos % 64 == 0
      invariant z[..] == n + LeBytes(pos / 64, 8)
      invariant sigma[..] == SIGMA && k[..] == old(k[..])
      invariant c[..] == Ciphered(c0, cPos, p, k[..], n, pos)
      invariant StillThere(m, mPos, c, cPos, c0, p)
    {
      CipherStep(c, cPos, m, mPos, b, pos, 64, z, k, x, sigma, wordBits, c0, p, n);
      assert z[8..] == LeBytes(pos / 64, 8);
      NextCounter(z, pos / 64);
      assert z[..] == z[..8] + z[8..];
      pos := pos + 64;
    }
    if b - pos > 0 {
      CipherStep(c, cPos, m, mPos, b, pos, b - pos, z, k, x, sigma, wordBits, c0, p, n);
    }
  }

  lemma CipheredNothing(c: seq<u8>, cPos: nat, p: seq<u8>, k: Key, n: seq<u8>)
    requires cPos <= |c| && |n| == 8
    ensures Ciphered(c, cPos, p, k, n, 0) == c
  {
    assert XorBytes(p[..0], Keystream(k, n, 0)) == [];
  }

  /** What is still to be read has not been overwritten, even when encrypting in place. */
  lemma PlainRest(m: array?<u8>, mPos: nat, b: nat, pos: nat, len: nat, p: seq<u8>,
                  c: array<u8>, cPos: nat, c0: seq<u8>, k: Key, n: seq<u8>)
    requires pos + len <= b == |p| && |n| == 8 && |c0| == c.Length && cPos + b <= c.Length
    requires m != null ==> mPos + b <= m.Length
    requires m == c ==> mPos == cPos
    requires c[..] == Ciphered(c0, cPos, p, k, n, pos)
    requires StillThere(m, mPos, c, cPos, c0, p)
    ensures Plain(m, mPos + pos, len) == p[pos..pos + len]
  {
    hide XorBytes, Keystream, Ciphered;
    if m == c {
      Untouched(c0, c[..], cPos, p, k, n, pos, len);
      SubSlice(c0, cPos, cPos + b, pos, pos + len);
      assert c[cPos + pos..cPos + pos + len] == c[..][cPos + pos..cPos + pos + len];
    } else if m != null {
      var s := m[..];
      assert m[mPos..mPos + b] == s[mPos..mPos + b];
      assert m[mPos + pos..mPos + pos + len] == s[mPos + pos..mPos + pos + len];
      SubSlice(s, mPos, mPos + b, pos, pos + len);
    }
  }

  lemma Untouched(c0: seq<u8>, c: seq<u8>, cPos: nat, p: seq<u8>, k: Key, n: seq<u8>, pos: nat, len: nat)
    requires cPos + pos + len <= |c0| && pos <= |p| && |n| == 8
    requires c == Ciphered(c0, cPos, p, k, n, pos)
    ensures c[cPos + pos..cPos + pos + len] == c0[cPos + pos..cPos + pos + len]
  {
    hide XorBytes, Keystream;
    var done := c0[..cPos] + XorBytes(p[..pos], Keystream(k, n, pos));
    assert c == done + c0[cPos + pos..];
    SubSlice(c, cPos + pos, |c|, 0, len);
    SubSlice(c0, cPos + pos, |c0|, 0, len);
    assert c[cPos + pos..] == c0[cPos + pos..];
  }

  lemma SubSlice<T>(s: seq<T>, i: nat, j: nat, a: nat, b: nat)
    requires i <= j <= |s| && a <= b <= j - i
    ensures s[i..j][a..b] == s[i + a..i + b]
  {
    forall k | 0 <= k < b - a
      ensures s[i..j][a..b][k] == s[i + a..i + b][k]
    {
      assert s[i..j][a + k] == s[i + (a + k)];
    }
  }

  method LoadNonce(n: array<u8>, nPos: nat) returns (z: array<u8>)
    requires nPos + 8 <= n.Length
    ensures fresh(z) && z.Length == 16 && z[..] == n[nPos..nPos + 8] + LeBytes(0, 8)
  {
    z := new u8[16](_ => 0);
    var i := 0;
    while i < 8
      invariant 0 <= i <= 8
      invariant forall j :: 0 <= j < i ==> z[j] == n[nPos + j]
      invariant forall j :: 8 <= j < 16 ==> z[j] == 0
    {
      z[i] := n[nPos + i];
      i := i + 1;
    }
    ZeroCounter(8);
    assert z[8..] == Zeros(8);
  }

  lemma {:induction false} ZeroCounter(len: nat)
    ensures LeBytes(0, len) == Zeros(len)
  {
    if len > 0 {
      ZeroCounter(len - 1);
      assert Zeros(len) == [0] + Zeros(len - 1);
    }
  }

  // ---------- XSalsa20 ----------

  method CryptoStreamXor(c: array<u8>, cPos: nat, m: array?<u8>, mPos: nat, d: nat,
                         n: array<u8>, nPos: nat, k: array<u8>, wordBits: nat)
    requires cPos + d <= c.Length && nPos + 24 <= n.Length && k.Length == 32
    requires m != null ==> mPos + d <= m.Length
    requires m == c ==> mPos == cPos
    requires wordBits >= 32
    modifies c
    ensures c[..] == Put(old(c[..]), cPos,
                         XorBytes(old(Plain(m, mPos, d)), XStream(old(k[..]), old(n[nPos..nPos + 24]), d)))
  {
    hide XorBytes, HSalsa20, Keystream;
    ghost var nonce, p := n[nPos..nPos + 24], Plain(m, mPos, d);
    var s := new u8[32];
    var sigma := new u8[16](i requires 0 <= i < 16 => SIGMA[i]);
    assert sigma[..] == SIGMA;
    CryptoCoreHSalsa20(s, n, nPos, k, sigma, wordBits);
    assert n[nPos..nPos + 16] == nonce[..16] && n[nPos + 16..nPos + 24] == nonce[16..];
    assert Plain(m, mPos, d) == p && c[..] == old(c[..]);
    CryptoStreamSalsa20Xor(c, cPos, m, mPos, d, n, nPos + 16, s, wordBits);
    assert p[..d] == p;
  }

  /** The bare keystream. */
  method CryptoStream(c: array<u8>, cPos: nat, d: nat, n: array<u8>, nPos: nat, k: array<u8>, wordBits: nat)
    requires cPos + d <= c.Length && nPos + 24 <= n.Length && k.Length == 32 && wordBits >= 32
    modifies c
    ensures c[..] == Put(old(c[..]), cPos, XStream(old(k[..]), old(n[nPos..nPos + 24]), d))
  {
    hide HSalsa20, Keystream;
    XorBytesZeros(XStream(k[..], n[nPos..nPos + 24], d));
    CryptoStreamXor(c, cPos, null, 0, d, n, nPos, k, wordBits);
  }

  // ---------- comparison ----------

  /** `(1 & ((d - 1) >> 8)) - 1` on an unsigned word: 0 for d == 0 and -1 for 1 <= d <= 255. */
  lemma Verdict(d: nat, wordBits: nat)
    requires d < 256 && wordBits >= 32
    ensures (d - 1) % Pow2(wordBits) / 256 % 2 - 1 == if d == 0 then 0 else -1
  {
    assert Pow2(9) == 512;
    hide Pow2;
    var w, h := Pow2(wordBits), Pow2(wordBits - 9);
    Pow2Add(wordBits - 9, 9);
    Pow2AtLeast32(wordBits);
    if d == 0 {
      AllOnesWord(h, w);
    } else {
      SmallWord(d - 1, w);
    }
  }

  lemma AllOnesWord(h: int, w: int)
    requires h > 0 && w == h * 512
    ensures -1 % w / 256 % 2 == 1
  {
    DivModUnique(-1, w, -1, w - 1);
    DivModUnique(w - 1, 256, 2 * h - 1, 255);
  }

  lemma SmallWord(d: nat, w: int)
    requires d < 256 <= w
    ensures d % w / 256 % 2 == 0
  {
    DivModUnique(d, w, 0, d);
  }

  method Vn(x: array<u8>, xPos: nat, y: array<u8>, yPos: nat, n: nat, wordBits: nat) returns (r: int)
    requires xPos + n <= x.Length && yPos + n <= y.Length && wordBits >= 32
    ensures r == if x[xPos..xPos + n] == y[yPos..yPos + n] then 0 else -1
  {
    hide Or, Xor, Pow2;
    WordSizes();
    var d, i := 0, 0;
    while i < n
      invariant 0 <= i <= n && 0 <= d < 256
      invariant d == 0 <==> x[xPos..xPos + i] == y[yPos..yPos + i]
    {
      var a, b := x[xPos + i], y[yPos + i];
      XorBound(a, b, 8);
      OrBound(d, Xor(a, b), 8);
      OrZero(d, Xor(a, b));
      XorIsZero(a, b);
      d := Or(d, Xor(a, b));
      assert x[xPos..xPos + i + 1] == x[xPos..xPos + i] + [a];
      assert y[yPos..yPos + i + 1] == y[yPos..yPos + i] + [b];
      i := i + 1;
    }
    Verdict(d, wordBits);
    r := (d - 1) % Pow2(wordBits) / 256 % 2 - 1;
  }

  // ---------- the box ----------

  /** The tag is written over the second half of the key it was computed with. */
  method CryptoSecretbox(c: array<u8>, cPos: nat, m: array<u8>, mPos: nat, d: nat,
                         n: array<u8>, nPos: nat, k: array<u8>, wordBits: nat) returns (r: int)
    requires cPos + d <= c.Length && mPos + d <= m.Length && nPos + 24 <= n.Length && k.Length == 32
    requires m == c ==> mPos == cPos
    requires wordBits >= 32
    modifies c
    ensures d < 32 ==> r == -1 && c[..] == old(c[..])
    ensures d >= 32 ==> r == 0
    ensures d >= 32 ==>
      c[..] == Put(old(c[..]), cPos, Box(old(m[mPos..mPos + d]), old(n[nPos..nPos + 24]), old(k[..])))
  {
    hide Tag, XorBytes, XStream;
    if d < 32 {
      return -1;
    }
    ghost var c0, s := c[..], XorBytes(m[mPos..mPos + d], XStream(k[..], n[nPos..nPos + 24], d));
    CryptoStreamXor(c, cPos, m, mPos, d, n, nPos, k, wordBits);
    PutParts(c0, c[..], cPos, s);
    assert c[cPos + 32..cPos + 32 + (d - 32)] == s[32..] && c[cPos..cPos + 32] == s[..32];
    ghost var c1 := c[..];
    CryptoOnetimeauth(c, cPos + 16, c, cPos + 32, d - 32, c, cPos, wordBits);
    ghost var c2 := c[..];
    Blank(c, cPos, 16);
    PutBox(c0, c1, c2, c[..], cPos, s);
    r := 0;
  }

  /** `FOR(i,len) c[i] = 0` */
  method Blank(c: array<u8>, cPos: nat, len: nat)
    requires cPos + len <= c.Length
    modifies c
    ensures c[..] == Put(old(c[..]), cPos, Zeros(len))
  {
    var i := 0;
    while i < len
      invariant 0 <= i <= len
      invariant forall j :: cPos <= j < cPos + i ==> c[j] == 0
      invariant forall j :: 0 <= j < cPos || cPos + i <= j < c.Length ==> c[j] == old(c[j])
    {
      c[cPos + i] := 0;
      i := i + 1;
    }
  }

  lemma PutParts(c0: seq<u8>, c: seq<u8>, pos: nat, s: seq<u8>)
    requires pos + |s| <= |c0| && |s| >= 32 && c == Put(c0, pos, s)
    ensures c[pos + 32..pos + |s|] == s[32..]
    ensures c[pos..pos + 32] == s[..32]
  {
    assert c[pos..pos + |s|] == s;
    SubSlice(c, pos, pos + |s|, 32, |s|);
    SubSlice(c, pos, pos + |s|, 0, 32);
  }

  lemma PutBox(c0: seq<u8>, c1: seq<u8>, c2: seq<u8>, c3: seq<u8>, pos: nat, s: seq<u8>)
    requires pos + |s| <= |c0| && |s| >= 32
    requires c1 == Put(c0, pos, s)
    requires c2 == c1[..pos + 16] + Tag(s[32..], s[..32]) + c1[pos + 32..]
    requires c3 == Put(c2, pos, Zeros(16))
    ensures c3 == Put(c0, pos, Zeros(16) + Tag(s[32..], s[..32]) + s[32..])
  {
    hide Tag, Zeros;
    var t := Tag(s[32..], s[..32]);
    assert c1[pos + 32..] == s[32..] + c0[pos + |s|..];
    assert c2[..pos] == c0[..pos];
    assert c2[pos + 16..] == t + c1[pos + 32..];
  }

  method CryptoSecretboxOpen(m: array<u8>, mPos: nat, c: array<u8>, cPos: nat, d: nat,
                             n: array<u8>, nPos: nat, k: array<u8>, wordBits: nat) returns (r: int)
    requires mPos + d <= m.Length && cPos + d <= c.Length && nPos + 24 <= n.Length && k.Length == 32
    requires m == c ==> mPos == cPos
    requires wordBits >= 32
    modifies m
    ensures match Unbox(old(c[cPos..cPos + d]), old(n[nPos..nPos + 24]), old(k[..]))
            case Forged => r == -1 && m[..] == old(m[..])
            case Opened(p) => r == 0 && |p| == d && m[..] == Put(old(m[..]), mPos, p)
  {
    hide Tag, XorBytes, XStream, Zeros;
    if d < 32 {
      return -1;
    }
    ghost var box, nonce, key := c[cPos..cPos + d], n[nPos..nPos + 24], k[..];
    var x := new u8[32];
    CryptoStream(x, 0, 32, n, nPos, k, wordBits);
    assert x[..] == XStream(key, nonce, 32);
    BoxParts(c[..], cPos, d);
    assert c[..][cPos..cPos + d] == box && c[..][cPos + 32..cPos + d] == box[32..];
    assert c[..][cPos + 16..cPos + 32] == box[16..32];
    var t := new u8[16];
    CryptoOnetimeauth(t, 0, c, cPos + 32, d - 32, x, 0, wordBits);
    assert x[0..32] == x[..] && t[0..16] == t[..];
    assert t[..] == Tag(box[32..], XStream(key, nonce, 32));
    var v := Vn(c, cPos + 16, t, 0, 16, wordBits);
    if v != 0 {
      return -1;
    }
    ghost var m0 := m[..];
    assert n[nPos..nPos + 24] == nonce && k[..] == key && Plain(c, cPos, d) == box;
    CryptoStreamXor(m, mPos, c, cPos, d, n, nPos, k, wordBits);
    ghost var m1 := m[..];
    Blank(m, mPos, 32);
    PutPadded(m0, m1, m[..], mPos, XorBytes(box, XStream(key, nonce, d)));
    r := 0;
  }

  lemma BoxParts(s: seq<u8>, pos: nat, d: nat)
    requires pos + d <= |s| && d >= 32
    ensures s[pos..pos + d][32..] == s[pos + 32..pos + d] && s[pos..pos + d][16..32] == s[pos + 16..pos + 32]
  {
    var t := s[pos..pos + d];
    assert t[32..] == s[pos + 32..pos + d];
    assert forall i :: 16 <= i < 32 ==> t[i] == s[pos + i];
    assert t[16..32] == s[pos + 16..pos + 32];
  }

  lemma PutPadded(m0: seq<u8>, m1: seq<u8>, m2: seq<u8>, pos: nat, s: seq<u8>)
    requires pos + |s| <= |m0| && |s| >= 32
    requires m1 == Put(m0, pos, s) && m2 == Put(m1, pos, Zeros(32))
    ensures m2 == Put(m0, pos, Zeros(32) + s[32..])
  {
    hide Zeros;
    assert m1[pos + 32..] == s[32..] + m0[pos + |s|..];
    assert m1[..pos] == m0[..pos];
  }
}
