/** The receive fields of netnacl as a value, and what they mean for a stream of frames. */
module Receiving {
  import opened Bits
  import opened StreamSpec
  import opened Records

  datatype RecvState = RecvState(
    hdrBytes: nat, ctBytes: nat, ptPos: nat, ptLen: nat,
    hdr: seq<u8>, ct: seq<u8>, pt: seq<u8>)

  ghost predicate Sized(s: RecvState) {
    |s.hdr| == 26 && |s.ct| == 4128 && |s.pt| == 4128
  }

  /** `recv_hdr.len`, once it is in host order. */
  function HdrLen(s: RecvState, big: bool): (r: u16)
    requires Sized(s)
  {
    LoadU16(s.hdr[0], s.hdr[1], big)
  }

  // ---------- the steps of netnacl_recv on values ----------

  /** `recv_hdr.len = ntohs(recv_hdr.len)` */
  function Swapped(hdr: seq<u8>, big: bool): (r: seq<u8>)
    requires |hdr| == 26
    ensures |r| == 26
  {
    StoreU16(SwapToNet(LoadU16(hdr[0], hdr[1], big), big), big) + hdr[2..]
  }

  /** Header bytes have arrived; the last one completes the header and its length is swapped. */
  function HdrRead(s: RecvState, b: seq<u8>, big: bool): (r: RecvState)
    requires Sized(s) && s.hdrBytes < 26 && s.hdrBytes + |b| <= 26
    ensures Sized(r)
  {
    var h := Put(s.hdr, s.hdrBytes, b);
    var n := s.hdrBytes + |b|;
    s.(hdrBytes := n, hdr := if n == 26 then Swapped(h, big) else h)
  }

  function CtRead(s: RecvState, b: seq<u8>): (r: RecvState)
    requires Sized(s) && s.ctBytes + |b| <= 4128
    ensures Sized(r)
  {
    s.(ctBytes := s.ctBytes + |b|, ct := Put(s.ct, s.ctBytes, b))
  }

  /** The box was opened as m: the padding is moved out of the way. */
  function Decrypted(s: RecvState, m: seq<u8>): (r: RecvState)
    requires Sized(s) && 32 <= |m| <= 4128
    ensures Sized(r)
  {
    s.(ptLen := |m| - 32, pt := Put(Put(s.pt, 0, m), 0, m[32..]))
  }

  /** n bytes were handed out; after the last one everything is reset for the next frame. */
  function Copied(s: RecvState, n: nat): (r: RecvState)
    requires Sized(s)
    ensures Sized(r)
  {
    if s.ptPos + n == s.ptLen then RecvState(0, 0, 0, 0, Zeros(26), Zeros(4128), Zeros(4128))
    else s.(ptPos := s.ptPos + n)
  }

  // ---------- one call of netnacl_recv on values, whatever the peer sends ----------

  /** What the fields keep to as long as no header asks for more than `recv_ct` holds. */
  ghost predicate Ordered(s: RecvState, big: bool) {
    && Sized(s) && s.hdrBytes <= 26 && s.ptPos <= s.ptLen <= 4096
    && (s.hdrBytes < 26 ==> s.ctBytes == 0 && s.ptLen == 0)
    && (s.hdrBytes == 26 ==> s.ctBytes <= HdrLen(s, big) <= 4128)
    && (s.ptLen > 0 ==> s.ctBytes == HdrLen(s, big) && s.ptPos < s.ptLen)
  }

  /** The header is there, and its box does not fit into `recv_ct`. */
  ghost predicate Overlong(s: RecvState, big: bool)
    requires Sized(s)
  {
    s.hdrBytes == 26 && HdrLen(s, big) > 4128
  }

  function HdrPart(s: RecvState, b: seq<u8>, big: bool): (r: RecvState)
    requires Sized(s) && s.hdrBytes + |b| <= 26
    ensures Sized(r)
  {
    if s.hdrBytes < 26 then HdrRead(s, b, big) else s
  }

  /** How many of n bytes complete the header. */
  function ToHdr(s: RecvState, n: nat): (h: nat)
    requires s.hdrBytes <= 26
    ensures h <= n && s.hdrBytes + h <= 26
  {
    if s.hdrBytes + n <= 26 then n else 26 - s.hdrBytes
  }

  /** No more is read than the header, and then the box that it announces. */
  ghost predicate Fits(s: RecvState, x: seq<u8>, big: bool)
    requires Ordered(s, big)
  {
    var h := ToHdr(s, |x|);
    var s1 := HdrPart(s, x[..h], big);
    h < |x| ==> s1.ctBytes + (|x| - h) <= HdrLen(s1, big) <= 4128
  }

  /** The bytes x have been read: the rest of the header, then of the box. */
  function BoxRead(s: RecvState, x: seq<u8>, big: bool): (r: RecvState)
    requires Ordered(s, big) && Fits(s, x, big)
    ensures Sized(r)
  {
    var h := ToHdr(s, |x|);
    CtRead(HdrPart(s, x[..h], big), x[h..])
  }

  datatype Handed = Handed(state: RecvState, out: seq<u8>, forged: bool)

  function Complete(s: RecvState, big: bool): (r: bool)
    requires Sized(s)
  {
    s.hdrBytes == 26 && s.ctBytes == HdrLen(s, big)
  }

  /** A whole box is opened once, and at most len bytes of its text are handed out. */
  function HandOut(s: RecvState, key: Key, big: bool, len: nat): (r: Handed)
    requires Ordered(s, big)
    ensures |r.out| <= len
  {
    if !Complete(s, big) then Handed(s, [], false)
    else if s.ptLen > 0 then FromText(s, len)
    else match Unbox(s.ct[..s.ctBytes], s.hdr[2..], key)
         case Forged => Handed(s, [], true)
         case Opened(m) => FromText(Decrypted(s, m), len)
  }

  /** An empty text is never handed out, and the frame stays where it is. */
  function FromText(s: RecvState, len: nat): (r: Handed)
    requires Sized(s) && s.ptPos <= s.ptLen <= 4096
    ensures |r.out| <= len && !r.forged
  {
    if s.ptLen == 0 then Handed(s, [], false)
    else
      var n := if s.ptLen - s.ptPos <= len then s.ptLen - s.ptPos else len;
      Handed(Copied(s, n), s.pt[s.ptPos..s.ptPos + n], false)
  }

  lemma ReadNothing(s: RecvState, big: bool)
    requires Ordered(s, big)
    ensures Fits(s, [], big) && CtRead(s, []) == s && HdrPart(s, [], big) == s && BoxRead(s, [], big) == s
  {
    hide Swapped, HdrLen;
    assert Put(s.ct, s.ctBytes, []) == s.ct && Put(s.hdr, s.hdrBytes, []) == s.hdr;
  }

  lemma HdrOnly(s: RecvState, b: seq<u8>, big: bool)
    requires Ordered(s, big) && s.hdrBytes < 26 && s.hdrBytes + |b| <= 26
    ensures Fits(s, b, big) && BoxRead(s, b, big) == HdrPart(s, b, big) == HdrRead(s, b, big)
    ensures var s1 := HdrRead(s, b, big);
            && s1.hdrBytes == s.hdrBytes + |b| && s1.ctBytes == 0 && s1.ptLen == 0
            && (Ordered(s1, big) || Overlong(s1, big))
  {
    hide Swapped, HdrLen;
    assert b[..|b|] == b && b[|b|..] == [];
    var s1 := HdrRead(s, b, big);
    assert Put(s1.ct, s1.ctBytes, []) == s1.ct;
  }

  /** After a header, x is of its box. */
  lemma ThenBox(s: RecvState, b: seq<u8>, x: seq<u8>, big: bool)
    requires Ordered(s, big) && s.hdrBytes + |b| == 26 && Ordered(HdrPart(s, b, big), big)
    requires var s1 := HdrPart(s, b, big); s1.hdrBytes == 26 && s1.ptLen == 0 && s1.ctBytes + |x| <= HdrLen(s1, big)
    ensures Fits(s, b + x, big)
    ensures var s2 := CtRead(HdrPart(s, b, big), x);
            && BoxRead(s, b + x, big) == s2 && Ordered(s2, big)
            && s2.hdrBytes == 26 && HdrLen(s2, big) == HdrLen(HdrPart(s, b, big), big)
  {
    hide Swapped, Put;
    assert (b + x)[..|b|] == b && (b + x)[|b|..] == x;
  }

  // ---------- what the fields mean ----------

  ghost predicate HeaderPartial(s: RecvState, f: Frame)
    requires Sized(s)
  {
    s.hdrBytes < 26 && s.hdr[..s.hdrBytes] == Header(f)[..s.hdrBytes]
    && s.ctBytes == 0 && s.ptLen == 0 && s.ptPos == 0
  }

  ghost predicate HeaderDone(s: RecvState, f: Frame, key: Key, big: bool)
    requires Sized(s)
  {
    && s.hdrBytes == 26
    && HdrLen(s, big) == 32 + |f.text| && s.hdr[2..] == f.nonce
    && s.ctBytes <= 32 + |f.text| && s.ct[..s.ctBytes] == Sealed(f, key)[..s.ctBytes]
  }

  /** Decrypted and not handed out completely: pt[ptPos..ptLen] is the residue. */
  ghost predicate HasPlain(s: RecvState, f: Frame)
    requires Sized(s)
  {
    s.ctBytes == 32 + |f.text| && s.ptLen == |f.text| && s.ptPos < s.ptLen && s.pt[..s.ptLen] == f.text
  }

  ghost predicate AtFrame(s: RecvState, f: Frame, key: Key, big: bool)
    requires Sized(s)
  {
    || HeaderPartial(s, f)
    || (HeaderDone(s, f, key, big) && ((s.ptLen == 0 && s.ptPos == 0) || HasPlain(s, f)))
  }

  /**
    The endpoint is somewhere in the first of the frames fs, and what the wire
    holds, followed by the tail still to be put on it, is what is left of them.
  */
  ghost predicate Follows(s: RecvState, fs: seq<Frame>, key: Key, big: bool, pending: seq<u8>, tail: seq<u8>) {
    && Sized(s)
    && pending + tail == Rest(fs, key, s.hdrBytes + s.ctBytes)
    && (fs == [] ==> s.hdrBytes == 0 && s.ctBytes == 0 && s.ptLen == 0 && s.ptPos == 0)
    && (fs != [] ==> AtFrame(s, fs[0], key, big))
  }

  /** The plaintext of fs that the caller has not been given. */
  ghost function Owed(s: RecvState, fs: seq<Frame>): (r: seq<u8>) {
    if fs != [] && s.ptPos <= |fs[0].text| then fs[0].text[s.ptPos..] + Texts(fs[1..]) else []
  }

  // ---------- the steps keep the meaning ----------

  lemma PrefixGrows(before: seq<u8>, h: nat, x: seq<u8>, w: seq<u8>)
    requires h + |x| <= |before| && h + |x| <= |w|
    requires before[..h] == w[..h] && x == w[h..h + |x|]
    ensures Put(before, h, x)[..h + |x|] == w[..h + |x|]
  {
    assert Put(before, h, x)[..h + |x|] == before[..h] + x;
    assert w[..h + |x|] == w[..h] + w[h..h + |x|];
  }

  lemma SwappedHeader(f: Frame, big: bool)
    ensures var h := Swapped(Header(f), big);
            LoadU16(h[0], h[1], big) == 32 + |f.text| && h[2..] == f.nonce
  {
    hide LoadU16, StoreU16, SwapToNet;
    var n := 32 + |f.text|;
    LengthSurvives(n, big, big);
    LoadStored(n, big);
    assert Header(f)[2..] == f.nonce;
  }

  lemma LoadStored(v: u16, big: bool)
    ensures var b := StoreU16(v, big); LoadU16(b[0], b[1], big) == v
  {
  }

  lemma HdrReadFollows(s: RecvState, fs: seq<Frame>, key: Key, big: bool, pending: seq<u8>, tail: seq<u8>, n: nat)
    requires Follows(s, fs, key, big, pending, tail) && s.hdrBytes < 26 && s.hdrBytes + n <= 26 && n <= |pending|
    ensures Follows(HdrRead(s, pending[..n], big), fs, key, big, pending[n..], tail)
    ensures Owed(HdrRead(s, pending[..n], big), fs) == Owed(s, fs)
  {
    hide Rest, Encode, Sealed, LoadU16, StoreU16, SwapToNet, Swapped;
    if n == 0 {
      assert Put(s.hdr, s.hdrBytes, pending[..n]) == s.hdr && pending[n..] == pending;
    } else {
      RestStep(fs, key, s.hdrBytes, n, pending, tail);
      var f := fs[0];
      HeaderSlice(f, key, s.hdrBytes, n);
      PrefixGrows(s.hdr, s.hdrBytes, pending[..n], Header(f));
      if s.hdrBytes + n == 26 {
        var h := Put(s.hdr, s.hdrBytes, pending[..n]);
        assert h[..26] == h && Header(f)[..26] == Header(f);
        SwappedHeader(f, big);
        assert s.ct[..0] == Sealed(f, key)[..0];
      }
    }
  }

  lemma HeaderSlice(f: Frame, key: Key, h: nat, n: nat)
    requires h + n <= 26
    ensures Encode(f, key)[h..h + n] == Header(f)[h..h + n]
  {
    hide Header, Sealed;
  }

  lemma SealedSlice(f: Frame, key: Key, c: nat, n: nat)
    requires c + n <= 32 + |f.text|
    ensures Encode(f, key)[26 + c..26 + c + n] == Sealed(f, key)[c..c + n]
  {
    hide Header, Sealed;
  }

  lemma CtReadFollows(s: RecvState, fs: seq<Frame>, key: Key, big: bool, pending: seq<u8>, tail: seq<u8>, n: nat)
    requires Follows(s, fs, key, big, pending, tail) && s.hdrBytes == 26
    requires s.ctBytes + n <= HdrLen(s, big) && n <= |pending| && s.ptLen == 0
    ensures HdrLen(s, big) <= 4128
    ensures Follows(CtRead(s, pending[..n]), fs, key, big, pending[n..], tail)
    ensures Owed(CtRead(s, pending[..n]), fs) == Owed(s, fs)
  {
    hide Rest, Encode, Sealed, LoadU16, Header;
    if n == 0 {
      assert Put(s.ct, s.ctBytes, pending[..n]) == s.ct && pending[n..] == pending;
    } else {
      RestStep(fs, key, 26 + s.ctBytes, n, pending, tail);
      SealedSlice(fs[0], key, s.ctBytes, n);
      PrefixGrows(s.ct, s.ctBytes, pending[..n], Sealed(fs[0], key));
    }
  }

  /** A complete frame opens, and its text is what the sender framed. */
  lemma DecryptFollows(s: RecvState, fs: seq<Frame>, key: Key, big: bool, pending: seq<u8>, tail: seq<u8>)
    requires Follows(s, fs, key, big, pending, tail) && s.hdrBytes == 26
    requires s.ctBytes == HdrLen(s, big) && s.ptLen == 0
    ensures fs != [] && HdrLen(s, big) <= 4128 && |s.hdr[2..]| == 24
    ensures Unbox(s.ct[..HdrLen(s, big)], s.hdr[2..], key) == Opened(Zeros(32) + fs[0].text)
    ensures var r := Decrypted(s, Zeros(32) + fs[0].text);
            Follows(r, fs, key, big, pending, tail) && Owed(r, fs) == Owed(s, fs) && r.ptLen == |fs[0].text|
  {
    hide Rest, Encode, LoadU16, Header, Box, Unbox, Zeros;
    var f := fs[0];
    var m := Zeros(32) + f.text;
    assert s.ct[..s.ctBytes] == Sealed(f, key);
    assert m[..32] == Zeros(32) && m[32..] == f.text;
    UnboxBox(m, f.nonce, key);
    assert Put(Put(s.pt, 0, m), 0, m[32..])[..|f.text|] == f.text;
  }

  /** Handing out n bytes of the residue takes exactly them off what is owed. */
  lemma CopyFollows(s: RecvState, fs: seq<Frame>, key: Key, big: bool, pending: seq<u8>, tail: seq<u8>, n: nat)
    requires Follows(s, fs, key, big, pending, tail) && s.ptLen > 0 && s.ptPos + n <= s.ptLen
    ensures fs != [] && s.hdrBytes == 26 && s.ctBytes == HdrLen(s, big)
    ensures var r, fs' := Copied(s, n), if s.ptPos + n == s.ptLen then fs[1..] else fs;
            && Follows(r, fs', key, big, pending, tail)
            && Owed(s, fs) == s.pt[s.ptPos..s.ptPos + n] + Owed(r, fs')
  {
    hide Rest, LoadU16, Header, Sealed, Zeros, Texts, Owed;
    if s.ptPos + n == s.ptLen {
      RestNext(fs, key);
      if fs[1..] != [] {
        assert Header(fs[1])[..0] == Copied(s, n).hdr[..0];
      }
      CopyLast(s, fs);
    } else {
      CopyPart(s, fs, n);
    }
  }

  lemma CopyLast(s: RecvState, fs: seq<Frame>)
    requires Sized(s) && fs != [] && HasPlain(s, fs[0])
    ensures Owed(s, fs) == s.pt[s.ptPos..s.ptLen] + Owed(Copied(s, s.ptLen - s.ptPos), fs[1..])
  {
    hide Texts, Zeros;
    SliceParts(s.pt, s.ptLen, s.ptPos, s.ptLen - s.ptPos);
    OwedFresh(Copied(s, s.ptLen - s.ptPos), fs[1..]);
    assert s.pt[..s.ptLen][s.ptLen..] == [];
  }

  lemma CopyPart(s: RecvState, fs: seq<Frame>, n: nat)
    requires Sized(s) && fs != [] && HasPlain(s, fs[0]) && s.ptPos + n < s.ptLen
    ensures Owed(s, fs) == s.pt[s.ptPos..s.ptPos + n] + Owed(Copied(s, n), fs)
  {
    hide Texts, Zeros;
    var t, p, rest := fs[0].text, s.ptPos, Texts(fs[1..]);
    assert Owed(s, fs) == t[p..] + rest;
    assert Owed(Copied(s, n), fs) == t[p + n..] + rest;
    assert s.pt[..s.ptLen] == t;
    hide *;
    SliceParts(s.pt, s.ptLen, p, n);
    Associate(s.pt[p..p + n], t[p + n..], rest);
  }

  lemma SliceParts(t: seq<u8>, len: nat, a: nat, n: nat)
    requires a + n <= len <= |t|
    ensures t[a..a + n] == t[..len][a..a + n]
    ensures t[..len][a..] == t[a..a + n] + t[..len][a + n..]
  {
    assert t[..len][a..] == t[..len][a..a + n] + t[..len][a + n..];
  }

  /** Once the header is there its length is in range, and plaintext only follows a whole box. */
  lemma FollowsFacts(s: RecvState, fs: seq<Frame>, key: Key, big: bool, pending: seq<u8>, tail: seq<u8>)
    requires Follows(s, fs, key, big, pending, tail) && s.hdrBytes == 26
    ensures s.ctBytes <= HdrLen(s, big) <= 4128
    ensures s.ptLen > 0 ==> s.ctBytes == HdrLen(s, big) && s.ptPos < s.ptLen <= 4096
    ensures s.ptLen == 0 ==> s.ptPos == 0
    ensures s.ctBytes < HdrLen(s, big) ==> s.ptLen == 0
  {
    hide Rest, Header, Sealed, LoadU16;
  }

  lemma OwedFresh(r: RecvState, fs: seq<Frame>)
    requires r.ptPos == 0
    ensures Owed(r, fs) == Texts(fs)
  {
    if fs != [] {
      assert fs[0].text[0..] == fs[0].text;
    }
  }

  // ---------- one call on a stream of frames ----------

  lemma FollowsOrdered(s: RecvState, fs: seq<Frame>, key: Key, big: bool, pending: seq<u8>, tail: seq<u8>)
    requires Follows(s, fs, key, big, pending, tail)
    ensures Ordered(s, big)
  {
    hide Rest, Header, Sealed, LoadU16;
  }

  /** A stream of frames never asks for more than `recv_ct` holds. */
  lemma BoxReadFollows(s: RecvState, fs: seq<Frame>, key: Key, big: bool, pending: seq<u8>, tail: seq<u8>, n: nat)
    requires Follows(s, fs, key, big, pending, tail) && n <= |pending|
    requires Ordered(s, big) && Fits(s, pending[..n], big)
    ensures Ordered(BoxRead(s, pending[..n], big), big) && !Overlong(BoxRead(s, pending[..n], big), big)
    ensures Follows(BoxRead(s, pending[..n], big), fs, key, big, pending[n..], tail)
    ensures Owed(BoxRead(s, pending[..n], big), fs) == Owed(s, fs)
  {
    hide Follows, Owed, HdrPart, CtRead, HdrLen;
    var x, h := pending[..n], ToHdr(s, n);
    SliceAgain(pending, n, h);
    HdrPartFollows(s, fs, key, big, pending, tail, h);
    var s1 := HdrPart(s, pending[..h], big);
    if h < n {
      FollowsFacts(s1, fs, key, big, pending[h..], tail);
      CtReadFollows(s1, fs, key, big, pending[h..], tail, n - h);
    } else {
      FollowsOrdered(s1, fs, key, big, pending[h..], tail);
      ReadNothing(s1, big);
    }
    FollowsOrdered(BoxRead(s, x, big), fs, key, big, pending[n..], tail);
  }

  lemma SliceAgain(s: seq<u8>, n: nat, h: nat)
    requires h <= n <= |s|
    ensures s[..n][..h] == s[..h] && s[..n][h..] == s[h..][..n - h] && s[h..][n - h..] == s[n..]
    ensures h == n ==> s[..n][h..] == []
  {
  }

  lemma HdrPartFollows(s: RecvState, fs: seq<Frame>, key: Key, big: bool, pending: seq<u8>, tail: seq<u8>, h: nat)
    requires Follows(s, fs, key, big, pending, tail) && Ordered(s, big) && h <= |pending| && s.hdrBytes + h <= 26
    ensures Follows(HdrPart(s, pending[..h], big), fs, key, big, pending[h..], tail)
    ensures Owed(HdrPart(s, pending[..h], big), fs) == Owed(s, fs)
    ensures HdrPart(s, pending[..h], big).hdrBytes == s.hdrBytes + h
  {
    hide Follows, Owed, HdrRead, HdrLen;
    HdrPartBytes(s, pending[..h], big);
    if s.hdrBytes < 26 {
      HdrReadFollows(s, fs, key, big, pending, tail, h);
    } else {
      assert pending[0..] == pending;
    }
  }

  lemma HdrPartBytes(s: RecvState, b: seq<u8>, big: bool)
    requires Sized(s) && s.hdrBytes + |b| <= 26
    ensures HdrPart(s, b, big).hdrBytes == s.hdrBytes + |b|
  {
    hide Swapped, Put;
  }

  /** A frame without a text has been read: it is never handed out, and stays in front. */
  ghost predicate NoText(s: RecvState, fs: seq<Frame>) {
    fs != [] && fs[0].text == [] && s.hdrBytes == 26 && s.ctBytes == 32
  }

  lemma NoTextIs(s: RecvState, fs: seq<Frame>, key: Key, big: bool, pending: seq<u8>, tail: seq<u8>)
    requires Follows(s, fs, key, big, pending, tail) && Complete(s, big) && fs != [] && fs[0].text == []
    ensures NoText(s, fs)
  {
    hide Rest, Header, Sealed, LoadU16;
  }

  lemma DecryptedKeeps(s: RecvState, m: seq<u8>)
    requires Sized(s) && 32 <= |m| <= 4128
    ensures Decrypted(s, m).hdrBytes == s.hdrBytes && Decrypted(s, m).ctBytes == s.ctBytes
  {
    hide Put;
  }

  /** A frame opens, and what is handed out comes off what is owed. */
  lemma HandOutFollows(
      s: RecvState, fs: seq<Frame>, key: Key, big: bool, pending: seq<u8>, tail: seq<u8>, len: nat)
    returns (fs': seq<Frame>)
    requires Follows(s, fs, key, big, pending, tail) && Ordered(s, big)
    ensures var r := HandOut(s, key, big, len);
            && !r.forged && (fs' == fs || (fs != [] && fs' == fs[1..]))
            && Follows(r.state, fs', key, big, pending, tail)
            && Owed(s, fs) == r.out + Owed(r.state, fs')
            && (Complete(s, big) && len > 0 && r.out == [] ==> NoText(r.state, fs'))
  {
    hide Follows, Owed, Decrypted, Copied, HdrLen, Unbox, Zeros;
    fs' := fs;
    if Complete(s, big) {
      FollowsFacts(s, fs, key, big, pending, tail);
      var s1 := s;
      if s.ptLen == 0 {
        DecryptFollows(s, fs, key, big, pending, tail);
        s1 := Decrypted(s, Zeros(32) + fs[0].text);
        FollowsOrdered(s1, fs, key, big, pending, tail);
      }
      if s1.ptLen > 0 {
        var n := |FromText(s1, len).out|;
        CopyFollows(s1, fs, key, big, pending, tail, n);
        fs' := if s1.ptPos + n == s1.ptLen then fs[1..] else fs;
      } else {
        NoTextIs(s, fs, key, big, pending, tail);
        DecryptedKeeps(s, Zeros(32) + fs[0].text);
      }
    }
  }
}
