/** The keystreams of Salsa20 and XSalsa20, and the secret box built on them. */
module StreamSpec {
  import opened Bits
  import opened Poly1305Spec
  import opened Salsa20Spec

  /** "expand 32-byte k" */
  const SIGMA: seq<u8> := [101, 120, 112, 97, 110, 100, 32, 51, 50, 45, 98, 121, 116, 101, 32, 107]

  type Key = k: seq<u8> | |k| == 32 witness seq(32, i => 0)
  type Nonce = n: seq<u8> | |n| == 24 witness seq(24, i => 0)

  /** Section 10 of the Salsa20 specification: block i uses the nonce followed by i in eight bytes. */
  function Block(k: Key, n: seq<u8>, i: nat): (b: seq<u8>)
    requires |n| == 8
    ensures |b| == 64
  {
    Salsa20(n + LeBytes(i, 8), k, SIGMA)
  }

  function KeyByte(k: Key, n: seq<u8>, i: nat): (r: u8)
    requires |n| == 8
  {
    Block(k, n, i / 64)[i % 64]
  }

  function Keystream(k: Key, n: seq<u8>, len: nat): (s: seq<u8>)
    requires |n| == 8
    ensures |s| == len
  {
    seq(len, i requires 0 <= i < len => KeyByte(k, n, i))
  }

  function XorByte(a: u8, b: u8): (r: u8) {
    WordSizes();
    XorBound(a, b, 8);
    Xor(a, b)
  }

  function XorBytes(a: seq<u8>, b: seq<u8>): (r: seq<u8>)
    requires |a| == |b|
    ensures |r| == |a|
  {
    seq(|a|, i requires 0 <= i < |a| => XorByte(a[i], b[i]))
  }

  /** s with b written over it at pos. */
  function Put(s: seq<u8>, pos: nat, b: seq<u8>): (r: seq<u8>)
    requires pos + |b| <= |s|
    ensures |r| == |s|
  {
    s[..pos] + b + s[pos + |b|..]
  }

  lemma Associate(a: seq<u8>, b: seq<u8>, c: seq<u8>)
    ensures (a + b) + c == a + (b + c)
  {
  }

  /** Writing on from where the last write ended is one longer write. */
  lemma PutPut(s: seq<u8>, pos: nat, a: seq<u8>, b: seq<u8>)
    requires pos + |a| + |b| <= |s|
    ensures Put(Put(s, pos, a), pos + |a|, b) == Put(s, pos, a + b)
  {
    var t := Put(s, pos, a);
    assert t[..pos + |a|] == s[..pos] + a;
    assert t[pos + |a| + |b|..] == s[pos + |a| + |b|..];
  }

  function Zeros(len: nat): (z: seq<u8>)
    ensures |z| == len
  {
    seq(len, i => 0)
  }

  /** XSalsa20: sixteen nonce bytes make a key for the last eight. */
  function XStream(k: Key, n: Nonce, len: nat): (s: seq<u8>)
    ensures |s| == len
  {
    Keystream(HSalsa20(n[..16], k, SIGMA), n[16..], len)
  }

  // ---------- the secret box ----------

  datatype Opened = Forged | Opened(m: seq<u8>)

  /** The stream cipher output; its first 32 bytes are the authenticator's key. */
  function Box(m: seq<u8>, n: Nonce, k: Key): (c: seq<u8>)
    requires |m| >= 32
    ensures |c| == |m|
  {
    var s := XorBytes(m, XStream(k, n, |m|));
    Zeros(16) + Tag(s[32..], s[..32]) + s[32..]
  }

  function Unbox(c: seq<u8>, n: Nonce, k: Key): (r: Opened)
    ensures r.Opened? ==> |r.m| == |c| >= 32
  {
    if |c| < 32 || Tag(c[32..], XStream(k, n, 32)) != c[16..32] then Forged
    else Opened(Zeros(32) + XorBytes(c, XStream(k, n, |c|))[32..])
  }

  lemma XorBytesTwice(a: seq<u8>, b: seq<u8>)
    requires |a| == |b|
    ensures XorBytes(XorBytes(a, b), b) == a
  {
    forall i | 0 <= i < |a|
      ensures XorBytes(XorBytes(a, b), b)[i] == a[i]
    {
      XorTwice(a[i], b[i]);
    }
  }

  lemma XorBytesZeros(b: seq<u8>)
    ensures XorBytes(Zeros(|b|), b) == b
  {
    forall i | 0 <= i < |b|
      ensures XorBytes(Zeros(|b|), b)[i] == b[i]
    {
      XorZero(b[i]);
    }
  }

  /** A shorter keystream is a prefix of a longer one. */
  lemma KeystreamPrefix(k: Key, n: seq<u8>, short: nat, long: nat)
    requires |n| == 8 && short <= long
    ensures Keystream(k, n, long)[..short] == Keystream(k, n, short)
  {
  }

  /** Opening undoes sealing for every padded message. */
  lemma UnboxBox(m: seq<u8>, n: Nonce, k: Key)
    requires |m| >= 32 && m[..32] == Zeros(32)
    ensures Unbox(Box(m, n, k), n, k) == Opened(m)
  {
    hide Tag, XStream, XorBytes;
    var ks, c := XStream(k, n, |m|), Box(m, n, k);
    var s := XorBytes(m, ks);
    StreamParts(m, n, k);
    assert c[32..] == s[32..] && c[16..32] == Tag(s[32..], s[..32]);
    XorTail(c, s, ks);
    XorBytesTwice(m, ks);
    assert m == Zeros(32) + m[32..];
  }

  /**
    Nothing else opens: c opens to m exactly when m is padded with zeros and c
    is the box of m, its sixteen unread bytes aside.
  */
  lemma OpensExactly(c: seq<u8>, m: seq<u8>, n: Nonce, k: Key)
    ensures Unbox(c, n, k) == Opened(m)
       <==> |c| == |m| >= 32 && m[..32] == Zeros(32) && Box(m, n, k)[16..] == c[16..]
  {
    if |c| == |m| >= 32 && m[..32] == Zeros(32) && Box(m, n, k)[16..] == c[16..] {
      BoxOpens(c, m, n, k);
    } else if Unbox(c, n, k) == Opened(m) {
      OpenedIsBoxed(c, m, n, k);
    }
  }

  lemma BoxOpens(c: seq<u8>, m: seq<u8>, n: Nonce, k: Key)
    requires |c| == |m| >= 32 && m[..32] == Zeros(32) && Box(m, n, k)[16..] == c[16..]
    ensures Unbox(c, n, k) == Opened(m)
  {
    hide Tag, XStream, XorBytes;
    UnboxBox(m, n, k);
    var b, ks := Box(m, n, k), XStream(k, n, |m|);
    assert c[16..32] == c[16..][..16] == b[16..][..16] == b[16..32];
    assert c[32..] == c[16..][16..] == b[16..][16..] == b[32..];
    XorTail(c, b, ks);
  }

  lemma OpenedIsBoxed(c: seq<u8>, m: seq<u8>, n: Nonce, k: Key)
    requires Unbox(c, n, k) == Opened(m)
    ensures m[..32] == Zeros(32) && Box(m, n, k)[16..] == c[16..]
  {
    hide Tag, XStream, XorBytes;
    var ks := XStream(k, n, |c|);
    var p := XorBytes(c, ks);
    var s := XorBytes(m, ks);
    assert m == Zeros(32) + p[32..];
    assert m[..32] == Zeros(32) && m[32..] == p[32..];
    StreamParts(m, n, k);
    XorTail(m, p, ks);
    XorBytesTwice(c, ks);
    assert s[32..] == c[32..];
    assert Box(m, n, k)[16..] == Tag(s[32..], s[..32]) + s[32..];
    assert c[16..] == c[16..32] + c[32..];
  }

  lemma XorTail(c: seq<u8>, s: seq<u8>, ks: seq<u8>)
    requires |c| == |s| == |ks| >= 32 && c[32..] == s[32..]
    ensures XorBytes(c, ks)[32..] == XorBytes(s, ks)[32..]
  {
    forall i | 0 <= i < |c| - 32
      ensures XorBytes(c, ks)[32..][i] == XorBytes(s, ks)[32..][i]
    {
      assert c[32..][i] == s[32..][i];
    }
  }

  /** Under the zero padding the stream cipher leaves the first keystream bytes. */
  lemma StreamParts(m: seq<u8>, n: Nonce, k: Key)
    requires |m| >= 32 && m[..32] == Zeros(32)
    ensures XorBytes(m, XStream(k, n, |m|))[..32] == XStream(k, n, 32)
  {
    hide HSalsa20, KeyByte;
    var sub := HSalsa20(n[..16], k, SIGMA);
    KeystreamPrefix(sub, n[16..], 32, |m|);
    XorBytesZeros(XStream(k, n, 32));
    forall i | 0 <= i < 32
      ensures XorBytes(m, XStream(k, n, |m|))[..32][i] == XStream(k, n, 32)[i]
    {
      assert m[i] == m[..32][i] == 0;
      assert XorBytes(Zeros(32), XStream(k, n, 32))[i] == XStream(k, n, 32)[i];
      assert XStream(k, n, |m|)[i] == XStream(k, n, |m|)[..32][i];
    }
  }

  /**
    Of a padded message the box is sixteen zeros, the authenticator of the rest
    under the first 32 bytes of the keystream, and the message under the others.
  */
  lemma BoxIs(m: seq<u8>, n: Nonce, k: Key)
    requires |m| >= 32 && m[..32] == Zeros(32)
    ensures var c := Box(m, n, k);
            && c[..16] == Zeros(16) && c[16..32] == Tag(c[32..], XStream(k, n, 32))
            && c[32..] == XorBytes(m[32..], XStream(k, n, |m|)[32..])
  {
    hide Tag, XStream, XorByte;
    StreamParts(m, n, k);
  }
}
