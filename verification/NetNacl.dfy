/** netnacl.c: the key exchange and the record layer, resumable at every byte. */
module NetNacl {
  import opened Bits
  import opened StreamSpec
  import opened SecretBox
  import opened CryptoBox
  import opened Records
  import opened Receiving
  import opened Wires
  import opened LinkSpec

  const NN_DISCONNECT: int := -5
  const NN_CRYPTO_ERR: int := -4
  const NN_WANT_READ: int := -3
  const NN_WANT_WRITE: int := -2
  const NN_ERR: int := -1
  const NN_SUCCESS: int := 0

  function Min(a: nat, b: nat): (r: nat) {
    if a < b then a else b
  }

  /** The key exchange waits for what blocks it: first for sending, then for receiving; anything else is an error. */
  function WrapAnswer(sent: nat, recvd: nat, write: Io, read: Io): (ret: int)
    ensures ret == NN_SUCCESS <==> sent >= 32 && recvd >= 32
    ensures ret == NN_WANT_WRITE <==> sent < 32 && write.Blocked?
    ensures ret == NN_WANT_READ <==> sent >= 32 && recvd < 32 && read.Blocked?
    ensures ret == NN_SUCCESS || ret == NN_WANT_READ || ret == NN_WANT_WRITE || ret == NN_ERR
  {
    if sent < 32 then if write.Blocked? then NN_WANT_WRITE else NN_ERR
    else if recvd < 32 then if read.Blocked? then NN_WANT_READ else NN_ERR
    else NN_SUCCESS
  }

  /** What `recv_hdr` and `recv_ciphertext` make of the outcome that stopped them. */
  function StopAnswer(r: Io): (ret: int)
    ensures ret == NN_WANT_READ <==> r.Blocked?
    ensures ret == NN_DISCONNECT <==> r.Closed?
    ensures ret == NN_ERR <==> r.Failed?
  {
    match r
    case Moved(_) => NN_SUCCESS
    case Blocked => NN_WANT_READ
    case Closed => NN_DISCONNECT
    case Failed(_) => NN_ERR
  }

  /** What a caller of `netnacl_recv` is told of it: an end is a count of zero. */
  function RecvAnswer(r: Io): (ret: int) {
    if r.Closed? then 0 else StopAnswer(r)
  }

  /** A call has come to the wire, and the last outcome there stopped it: that is what its answer tells. */
  ghost predicate Stopped(before: seq<Io>, after: seq<Io>, ret: int) {
    before < after && !Last(after).Moved? && ret == RecvAnswer(Last(after))
  }

  /** A frame is left over because a call of `send` has just come back without taking more. */
  ghost predicate Unfinished(before: seq<Io>, after: seq<Io>, ret: int) {
    before < after && !Last(after).Moved? && ret == if Last(after).Blocked? then NN_WANT_WRITE else NN_ERR
  }

  /** `netnacl_t`, with the socket as a pair of wires and the host's word size and byte order. */
  class Endpoint {
    var keyBytesSent: nat
    var keyBytesRecvd: nat
    var hdrBytesRecvd: nat
    var ctBytesRecvd: nat
    const pk: array<u8>
    const sk: array<u8>
    const peerPk: array<u8>
    const symKey: array<u8>
    const recvCt: array<u8>
    const recvPt: array<u8>
    var recvPtPos: u16
    var recvPtLen: u16
    var sendBufLen: u16
    var sendBufPos: u16
    const sendBuf: array<u8>
    const recvHdr: array<u8>
    const inp: Wire
    const out: Wire
    const bigEndian: bool
    const wordBits: nat

    /** The arrays have their declared sizes and do not overlap. */
    ghost predicate Shape() {
      && wordBits >= 32
      && pk.Length == 32 && sk.Length == 32 && peerPk.Length == 32 && symKey.Length == 32
      && recvCt.Length == 4128 && recvPt.Length == 4128 && sendBuf.Length == 4154 && recvHdr.Length == 26
      && pk != sk && pk != peerPk && pk != symKey && sk != peerPk && sk != symKey && peerPk != symKey
      && recvHdr != symKey && recvHdr != recvCt && recvHdr != recvPt && recvHdr != sendBuf
      && recvCt != symKey && recvCt != recvPt && recvCt != sendBuf
      && recvPt != symKey && recvPt != sendBuf && sendBuf != symKey
      && pk != recvHdr && pk != recvCt && pk != recvPt && pk != sendBuf
      && sk != recvHdr && sk != recvCt && sk != recvPt && sk != sendBuf
      && peerPk != recvHdr && peerPk != recvCt && peerPk != recvPt && peerPk != sendBuf
      && inp != out
    }

    ghost function Repr(): (r: set<object>) {
      {this, pk, sk, peerPk, symKey, recvCt, recvPt, sendBuf, recvHdr}
    }

    constructor (inp: Wire, out: Wire, bigEndian: bool, wordBits: nat)
      requires inp != out && wordBits >= 32
      ensures Shape() && fresh(Repr())
      ensures this.inp == inp && this.out == out && this.wordBits == wordBits
      ensures keyBytesSent == 0 && keyBytesRecvd == 0
      ensures hdrBytesRecvd == 0 && ctBytesRecvd == 0 && recvPtLen == 0 && recvPtPos == 0
      ensures sendBufLen == 0 && sendBufPos == 0
    {
      keyBytesSent, keyBytesRecvd, hdrBytesRecvd, ctBytesRecvd := 0, 0, 0, 0;
      recvPtPos, recvPtLen, sendBufLen, sendBufPos := 0, 0, 0, 0;
      pk := new u8[32](_ => 0);
      sk := new u8[32](_ => 0);
      peerPk := new u8[32](_ => 0);
      symKey := new u8[32](_ => 0);
      recvCt := new u8[4128](_ => 0);
      recvPt := new u8[4128](_ => 0);
      sendBuf := new u8[4154](_ => 0);
      recvHdr := new u8[26](_ => 0);
      this.inp, this.out, this.bigEndian, this.wordBits := inp, out, bigEndian, wordBits;
    }

    // ---------- the key exchange ----------

    /** Once a byte of the public key is out, it stays the one that matches the secret key. */
    ghost predicate KeyShape()
      requires Shape()
      reads this, pk, sk, symKey, peerPk
    {
      && keyBytesSent <= 32 && keyBytesRecvd <= 32
      && (keyBytesSent > 0 ==> pk[..] == PublicKey(sk[..]))
      && (keyBytesRecvd == 32 ==> keyBytesSent == 32 && symKey[..] == SharedKey(peerPk[..], sk[..]))
    }

    /**
      `netnacl_wrap`: takes the exchange up where the last call left it. It never
      sends more than the 32 bytes of one key nor takes more than 32 from the peer.
    */
    method Wrap() returns (ret: int)
      requires Shape() && KeyShape() && inp.Valid() && out.Valid()
      modifies this`keyBytesSent, this`keyBytesRecvd, pk, sk, peerPk, symKey, out`sent, out`sends, inp`taken, inp`recvs
      ensures KeyShape() && inp.Valid() && out.Valid()
      ensures old(keyBytesSent) > 0 ==> pk[..] == old(pk[..]) && sk[..] == old(sk[..])
      ensures old(keyBytesSent) <= keyBytesSent && out.sent == old(out.sent) + pk[old(keyBytesSent)..keyBytesSent]
      ensures old(keyBytesRecvd) <= keyBytesRecvd
      ensures inp.taken == old(inp.taken) + (keyBytesRecvd - old(keyBytesRecvd))
      ensures peerPk[..] == Put(old(peerPk[..]), old(keyBytesRecvd), inp.sent[old(inp.taken)..inp.taken])
      ensures old(keyBytesRecvd) == 32 ==> symKey[..] == old(symKey[..])
      ensures ret == WrapAnswer(keyBytesSent, keyBytesRecvd, Last(out.sends), Last(inp.recvs))
      ensures keyBytesSent < 32 ==> old(out.sends) < out.sends && !Last(out.sends).Moved?
      ensures keyBytesSent == 32 && keyBytesRecvd < 32 ==> old(inp.recvs) < inp.recvs && !Last(inp.recvs).Moved?
    {
      hide Put, SharedKey, PublicKey;
      PutNothing(peerPk[..], keyBytesRecvd);
      assert inp.sent[inp.taken..inp.taken] == [];
      if keyBytesSent == 0 {
        CryptoBoxKeypair(pk, sk);
      }
      assert pk[keyBytesSent..keyBytesSent] == [];
      if keyBytesSent < 32 {
        var pos, r := out.Drain(pk, keyBytesSent, 32);
        keyBytesSent := pos;
        if !r.Moved? {
          return if r.Blocked? then NN_WANT_WRITE else NN_ERR;
        }
      }
      if keyBytesRecvd < 32 {
        var pos, r := inp.Fill(peerPk, keyBytesRecvd, 32);
        keyBytesRecvd := pos;
        if !r.Moved? {
          return if r.Blocked? then NN_WANT_READ else NN_ERR;
        }
      }
      CryptoBoxBeforenm(symKey, peerPk, sk, wordBits);
      return NN_SUCCESS;
    }

    // ---------- receiving ----------

    ghost function RecvView(): (s: RecvState)
      requires Shape()
      reads this, recvHdr, recvCt, recvPt
      ensures Sized(s)
    {
      RecvState(hdrBytesRecvd, ctBytesRecvd, recvPtPos, recvPtLen, recvHdr[..], recvCt[..], recvPt[..])
    }

    method RecvHdr() returns (ret: int)
      requires Shape() && inp.Valid() && hdrBytesRecvd < 26
      modifies this`hdrBytesRecvd, recvHdr, inp`taken, inp`recvs
      ensures inp.Valid() && old(inp.taken) <= inp.taken && inp.taken - old(inp.taken) <= 26 - old(hdrBytesRecvd)
      ensures RecvView() == HdrRead(old(RecvView()), inp.sent[old(inp.taken)..inp.taken], bigEndian)
      ensures ret == NN_SUCCESS <==> hdrBytesRecvd == 26
      ensures old(inp.recvs) < inp.recvs && ret == StopAnswer(Last(inp.recvs))
      ensures ret == NN_DISCONNECT ==> inp.taken == |inp.sent|
    {
      hide Put, LoadU16, StoreU16, SwapToNet;
      var pos, r := inp.Fill(recvHdr, hdrBytesRecvd, 26);
      hdrBytesRecvd := pos;
      if !r.Moved? {
        return StopAnswer(r);
      }
      var v := SwapToNet(LoadU16(recvHdr[0], recvHdr[1], bigEndian), bigEndian);
      var b := StoreU16(v, bigEndian);
      recvHdr[0], recvHdr[1] := b[0], b[1];
      return NN_SUCCESS;
    }

    /**
      `recv_ciphertext`. The code never compares the length with the size of
      `recv_ct`: the call of `recv` stays inside exactly when it is at most 4128.
      What happens when it does not is beyond this model, and `safe` says so.
    */
    method RecvCiphertext() returns (ret: int, safe: bool)
      requires Shape() && inp.Valid() && ctBytesRecvd < HdrLen(RecvView(), bigEndian) && ctBytesRecvd < 4128
      modifies this`ctBytesRecvd, recvCt, inp`taken, inp`recvs
      ensures inp.Valid() && old(inp.taken) <= inp.taken
      ensures safe <==> HdrLen(old(RecvView()), bigEndian) <= recvCt.Length
      ensures inp.taken - old(inp.taken) <= HdrLen(old(RecvView()), bigEndian) - old(ctBytesRecvd)
      ensures !safe ==> inp.taken == old(inp.taken) && RecvView() == old(RecvView())
      ensures safe ==> RecvView() == CtRead(old(RecvView()), inp.sent[old(inp.taken)..inp.taken])
      ensures safe ==> (ret == NN_SUCCESS <==> ctBytesRecvd == HdrLen(old(RecvView()), bigEndian))
      ensures !safe ==> inp.recvs == old(inp.recvs)
      ensures safe ==> old(inp.recvs) < inp.recvs && ret == StopAnswer(Last(inp.recvs))
      ensures ret == NN_DISCONNECT ==> inp.taken == |inp.sent|
    {
      hide Put, LoadU16;
      var len := LoadU16(recvHdr[0], recvHdr[1], bigEndian);
      if len > recvCt.Length {
        return NN_ERR, false;
      }
      var pos, r := inp.Fill(recvCt, ctBytesRecvd, len);
      ctBytesRecvd := pos;
      if !r.Moved? {
        return StopAnswer(r), true;
      }
      return NN_SUCCESS, true;
    }

    method DecryptCiphertext() returns (ret: int)
      requires Shape() && ctBytesRecvd == HdrLen(RecvView(), bigEndian) <= recvCt.Length
      modifies this`recvPtLen, recvPt
      ensures match Unbox(recvCt[..HdrLen(old(RecvView()), bigEndian)], recvHdr[2..], symKey[..])
              case Forged => ret == NN_CRYPTO_ERR && RecvView() == old(RecvView())
              case Opened(m) => ret == NN_SUCCESS && |m| <= 4128 && RecvView() == Decrypted(old(RecvView()), m)
    {
      hide Unbox, Put, LoadU16;
      var len := LoadU16(recvHdr[0], recvHdr[1], bigEndian);
      assert recvCt[0..0 + len] == recvCt[..len] && recvHdr[2..2 + 24] == recvHdr[2..];
      var r := CryptoSecretboxOpen(recvPt, 0, recvCt, 0, len, recvHdr, 2, symKey, wordBits);
      if r != 0 {
        return NN_CRYPTO_ERR;
      }
      PutSlice(old(recvPt[..]), Unbox(recvCt[..len], recvHdr[2..], symKey[..]).m, 32);
      recvPtLen := len - 32;
      MoveDown(recvPt, 32, recvPtLen);
      return NN_SUCCESS;
    }

    method CopyPlaintextToBuffer(buf: array<u8>, pos: nat, len: nat) returns (ret: nat)
      requires Shape() && pos + len <= buf.Length && recvPtPos <= recvPtLen <= 4096
      requires buf != recvHdr && buf != recvCt && buf != recvPt
      modifies this`recvPtPos, this`recvPtLen, this`hdrBytesRecvd, this`ctBytesRecvd, recvHdr, recvPt, recvCt, buf
      ensures ret == Min(old(recvPtLen) - old(recvPtPos), len)
      ensures buf[..] == Put(old(buf[..]), pos, old(recvPt[recvPtPos..recvPtPos + Min(recvPtLen - recvPtPos, len)]))
      ensures RecvView() == Copied(old(RecvView()), ret)
    {
      hide Put, Zeros;
      ret := Min(recvPtLen - recvPtPos, len);
      CopyBytes(buf, pos, recvPt, recvPtPos, ret);
      recvPtPos := recvPtPos + ret;
      if recvPtPos == recvPtLen {
        Blank(recvHdr, 0, 26);
        Blank(recvPt, 0, 4128);
        Blank(recvCt, 0, 4128);
        PutAll(old(recvHdr[..]));
        PutAll(old(recvPt[..]));
        PutAll(old(recvCt[..]));
        recvPtLen, recvPtPos, hdrBytesRecvd, ctBytesRecvd := 0, 0, 0, 0;
      }
    }

    /** The first half of `netnacl_recv`: the rest of the header, then the rest of the box. */
    method RecvBox() returns (ret: int, safe: bool)
      requires Shape() && inp.Valid() && Ordered(RecvView(), bigEndian)
      modifies this`hdrBytesRecvd, this`ctBytesRecvd, recvHdr, recvCt, inp`taken, inp`recvs
      ensures inp.Valid() && old(inp.taken) <= inp.taken && old(inp.recvs) <= inp.recvs
      ensures Fits(old(RecvView()), inp.sent[old(inp.taken)..inp.taken], bigEndian)
      ensures RecvView() == BoxRead(old(RecvView()), inp.sent[old(inp.taken)..inp.taken], bigEndian)
      ensures safe <==> !Overlong(RecvView(), bigEndian)
      ensures safe ==> Ordered(RecvView(), bigEndian) && (ret == NN_SUCCESS <==> Complete(RecvView(), bigEndian))
      ensures safe && ret != NN_SUCCESS ==> old(inp.recvs) < inp.recvs && ret == StopAnswer(Last(inp.recvs))
      ensures ret == NN_DISCONNECT ==> inp.taken == |inp.sent|
    {
      hide HdrRead, CtRead, LoadU16;
      ret, safe := NN_SUCCESS, true;
      ghost var s0, t0 := RecvView(), inp.taken;
      ReadNothing(s0, bigEndian);
      if hdrBytesRecvd < 26 {
        ret := RecvHdr();
        HdrOnly(s0, inp.sent[t0..inp.taken], bigEndian);
        if ret != NN_SUCCESS {
          return;
        }
      }
      ghost var s1, t1 := RecvView(), inp.taken;
      if ctBytesRecvd < LoadU16(recvHdr[0], recvHdr[1], bigEndian) {
        ret, safe := RecvCiphertext();
        assert inp.sent[t0..inp.taken] == inp.sent[t0..t1] + inp.sent[t1..inp.taken];
        if safe {
          ThenBox(s0, inp.sent[t0..t1], inp.sent[t1..inp.taken], bigEndian);
        }
      }
    }

    /**
      `netnacl_recv`, whatever the peer sends: the call goes on where the last one
      stopped, and unless a header asks for more than `recv_ct` holds, the caller's
      buffer and the state are those of the two steps on values.
    */
    method Recv(buf: array<u8>, pos: nat, len: nat) returns (ret: int, safe: bool)
      requires Shape() && inp.Valid() && pos + len <= buf.Length && Ordered(RecvView(), bigEndian)
      requires buf != recvHdr && buf != recvCt && buf != recvPt && buf != symKey
      modifies this`recvPtPos, this`recvPtLen, this`hdrBytesRecvd, this`ctBytesRecvd, recvHdr, recvPt, recvCt
      modifies inp`taken, inp`recvs, buf
      ensures inp.Valid() && old(inp.taken) <= inp.taken && old(inp.recvs) <= inp.recvs
      ensures Fits(old(RecvView()), inp.sent[old(inp.taken)..inp.taken], bigEndian)
      ensures var s := BoxRead(old(RecvView()), inp.sent[old(inp.taken)..inp.taken], bigEndian);
              && (safe <==> !Overlong(s, bigEndian))
              && if !safe then RecvView() == s && buf[..] == old(buf[..])
                 else
                   && Ordered(s, bigEndian)
                   && var h := HandOut(s, symKey[..], bigEndian, len);
                      && RecvView() == h.state && buf[..] == Put(old(buf[..]), pos, h.out)
                      && (if h.forged then ret == NN_CRYPTO_ERR
                          else if Complete(s, bigEndian) then ret == |h.out|
                          else
                            && old(inp.recvs) < inp.recvs && ret == RecvAnswer(Last(inp.recvs))
                            && !Last(inp.recvs).Moved? && (Last(inp.recvs).Closed? ==> inp.taken == |inp.sent|))
    {
      hide FromText, BoxRead, Fits, LoadU16, Unbox, Put;
      PutNothing(buf[..], pos);
      ret, safe := RecvBox();
      if !safe || ret != NN_SUCCESS {
        ret := if ret == NN_DISCONNECT then 0 else ret;
        return;
      }
      hide HandOut;
      ret := HandOver(buf, pos, len);
    }

    /** The second half of `netnacl_recv`: a whole box is opened unless it has been, and its text is handed out. */
    method HandOver(buf: array<u8>, pos: nat, len: nat) returns (ret: int)
      requires Shape() && pos + len <= buf.Length && Ordered(RecvView(), bigEndian) && Complete(RecvView(), bigEndian)
      requires buf != recvHdr && buf != recvCt && buf != recvPt && buf != symKey
      modifies this`recvPtPos, this`recvPtLen, this`hdrBytesRecvd, this`ctBytesRecvd, recvHdr, recvPt, recvCt, buf
      ensures var h := HandOut(old(RecvView()), symKey[..], bigEndian, len);
              && RecvView() == h.state && buf[..] == Put(old(buf[..]), pos, h.out)
              && ret == if h.forged then NN_CRYPTO_ERR else |h.out|
    {
      hide Copied, LoadU16, Unbox, Put;
      PutNothing(buf[..], pos);
      ret := NN_SUCCESS;
      if recvPtLen == 0 {
        ret := DecryptCiphertext();
        if ret != NN_SUCCESS {
          return;
        }
      }
      if 0 < recvPtLen {
        ret := CopyPlaintextToBuffer(buf, pos, len);
      }
    }

    /**
      `netnacl_recv`, on a stream of frames: what it returns is taken off the
      plaintext owed, whatever the wire delivers and wherever the last call stopped.
    */
    method RecvFrames(buf: array<u8>, pos: nat, len: nat, ghost fs: seq<Frame>, ghost tail: seq<u8>)
      returns (ret: int, ghost fs': seq<Frame>)
      requires Shape() && inp.Valid() && pos + len <= buf.Length
      requires buf != recvHdr && buf != recvCt && buf != recvPt && buf != symKey
      requires Follows(RecvView(), fs, symKey[..], bigEndian, inp.Pending(), tail)
      modifies this`recvPtPos, this`recvPtLen, this`hdrBytesRecvd, this`ctBytesRecvd, recvHdr, recvPt, recvCt
      modifies inp`taken, inp`recvs, buf
      ensures inp.Valid() && old(inp.taken) <= inp.taken
      ensures Follows(RecvView(), fs', symKey[..], bigEndian, inp.Pending(), tail)
      ensures fs' == fs || (fs != [] && fs' == fs[1..])
      ensures ret == NN_WANT_READ || ret == NN_ERR || 0 <= ret <= len
      ensures old(inp.recvs) <= inp.recvs
      ensures ret <= 0 && len > 0 ==>
        || (Stopped(old(inp.recvs), inp.recvs, ret) && (ret == 0 ==> inp.taken == |inp.sent|))
        || (ret == 0 && NoText(RecvView(), fs'))
      ensures Received(old(buf[..]), buf[..], pos, ret, old(Owed(RecvView(), fs)), Owed(RecvView(), fs'))
    {
      hide Follows, Owed, BoxRead, Fits, FromText, Ordered, Put, LoadU16, Unbox, Decrypted;
      ghost var key, b0, s0, p0 := symKey[..], buf[..], RecvView(), inp.Pending();
      FollowsOrdered(s0, fs, key, bigEndian, p0, tail);
      var safe;
      ret, safe := Recv(buf, pos, len);
      ghost var n := inp.taken - old(inp.taken);
      assert inp.sent[old(inp.taken)..inp.taken] == p0[..n] && inp.Pending() == p0[n..];
      BoxReadFollows(s0, fs, key, bigEndian, p0, tail, n);
      ghost var s1 := BoxRead(s0, p0[..n], bigEndian);
      fs' := HandOutFollows(s1, fs, key, bigEndian, p0[n..], tail, len);
      ReceivedOut(b0, pos, HandOut(s1, key, bigEndian, len).out, ret, Owed(RecvView(), fs'));
    }

    // ---------- sending ----------

    ghost predicate SendShape()
      reads this
    {
      sendBufLen <= 4154 && (if sendBufLen == 0 then sendBufPos == 0 else sendBufPos < sendBufLen)
    }

    /** The part of the frame in flight that the wire has not taken. */
    ghost function Remaining(): (r: seq<u8>)
      requires Shape() && SendShape()
      reads this, sendBuf
    {
      sendBuf[sendBufPos..sendBufLen]
    }

    method EncryptPlaintext(buf: array<u8>, pos: nat, len: nat) returns (ghost f: Frame)
      requires Shape() && pos + len <= buf.Length && buf != sendBuf && buf != symKey
      modifies this`sendBufLen, sendBuf
      ensures f.text == buf[pos..pos + Min(len, 4096)]
      ensures sendBufLen == 58 + |f.text| && sendBuf[..sendBufLen] == Encode(f, symKey[..])
    {
      hide Box, Put, LoadU16, StoreU16, SwapToNet, Zeros;
      var nonce := new u8[24](_ => 0);
      var ptBuf := new u8[4128](_ => 0);
      RandomBytes(nonce);
      var ptLen := Min(len, 4096);
      var hdrLen: u16 := ptLen + 32;
      sendBufLen := hdrLen + 26;
      ClearedPad(ptBuf[..]);
      CopyBytes(ptBuf, 32, buf, pos, ptLen);
      f := Record(nonce[..], buf[pos..pos + ptLen]);
      PutPadding(f.text, ptBuf[..]);
      assert ptBuf[0..0 + (32 + ptLen)] == Zeros(32) + f.text && nonce[0..0 + 24] == nonce[..];
      ghost var before := sendBuf[..];
      var r := CryptoSecretbox(sendBuf, 26, ptBuf, 0, ptLen + 32, nonce, 0, symKey, wordBits);
      LengthSurvives(hdrLen, bigEndian, bigEndian);
      var b := StoreU16(SwapToNet(hdrLen, bigEndian), bigEndian);
      WriteHeader(sendBuf, b, nonce);
      assert b + nonce[..] == Header(f);
      PutTwice(before, b + nonce[..], Sealed(f, symKey[..]));
    }

    method SendCiphertext(len: nat) returns (ret: int)
      requires Shape() && SendShape() && out.Valid() && sendBufLen > 0
      modifies this`sendBufLen, this`sendBufPos, sendBuf, out`sent, out`sends
      ensures SendShape() && out.Valid() && old(out.sent) <= out.sent && old(out.sends) < out.sends
      ensures out.sent + Remaining() == old(out.sent) + old(Remaining())
      ensures if sendBufLen == 0 then ret == Min(len, 4096) else Unfinished(old(out.sends), out.sends, ret)
    {
      var p, r := out.Drain(sendBuf, sendBufPos, sendBufLen);
      assert sendBuf[sendBufPos..p] + sendBuf[p..sendBufLen] == sendBuf[sendBufPos..sendBufLen];
      sendBufPos := p;
      if !r.Moved? {
        return if r.Blocked? then NN_WANT_WRITE else NN_ERR;
      }
      Blank(sendBuf, 0, sendBufLen);
      sendBufLen, sendBufPos := 0, 0;
      ret := Min(len, 4096);
    }

    /**
      `netnacl_send`: frames at most 4096 bytes of the buffer unless a frame is
      still in flight, and reports them only when the wire has taken the whole frame.
    */
    method Send(buf: array<u8>, pos: nat, len: nat) returns (ret: int, ghost f: Frame)
      requires Shape() && SendShape() && out.Valid() && pos + len <= buf.Length && buf != sendBuf && buf != symKey
      modifies this`sendBufLen, this`sendBufPos, sendBuf, out`sent, out`sends
      ensures SendShape() && out.Valid() && old(out.sent) <= out.sent && old(out.sends) < out.sends
      ensures old(sendBufLen) == 0 ==> f.text == buf[pos..pos + Min(len, 4096)]
      ensures out.sent + Remaining()
           == old(out.sent) + if old(sendBufLen) == 0 then Encode(f, symKey[..]) else old(Remaining())
      ensures if sendBufLen == 0 then ret == Min(len, 4096) else Unfinished(old(out.sends), out.sends, ret)
    {
      hide Encode;
      f := Record(Zeros(24), []);
      if sendBufLen == 0 {
        f := EncryptPlaintext(buf, pos, len);
        assert sendBuf[0..sendBufLen] == sendBuf[..sendBufLen];
      }
      ret := SendCiphertext(len);
    }

    // ---------- the two roles as values ----------

    ghost function SenderView(): (r: Sender)
      requires Shape() && SendShape()
      reads this, pk, sendBuf, symKey, out`sent
    {
      Sender(out.sent, pk[..], keyBytesSent, Remaining(), symKey[..], keyBytesRecvd == 32)
    }

    ghost function ReceiverView(): (r: Receiver)
      requires Shape()
      reads this, peerPk, recvHdr, recvCt, recvPt, symKey, inp`taken
    {
      Receiver(inp.taken, keyBytesRecvd, peerPk[..], RecvView(), symKey[..], bigEndian)
    }
  }

  lemma ClearedPad(p: seq<u8>)
    requires |p| == 4128 && forall i :: 0 <= i < 4128 ==> p[i] == 0
    ensures p == Zeros(4128)
  {
  }

  lemma PutPadding(text: seq<u8>, p: seq<u8>)
    requires |text| <= 4096 && p == Put(Zeros(4128), 32, text)
    ensures p[0..32 + |text|] == Zeros(32) + text
  {
    assert Zeros(4128)[..32] == Zeros(32);
  }

  lemma PutTwice(s: seq<u8>, h: seq<u8>, b: seq<u8>)
    requires |h| == 26 && 26 + |b| <= |s|
    ensures Put(Put(s, 26, b), 0, h)[..26 + |b|] == h + b
  {
    var t := Put(s, 26, b);
    assert t[26..26 + |b|] == b;
    assert Put(t, 0, h) == h + t[26..];
  }

  method WriteHeader(dst: array<u8>, len: seq<u8>, nonce: array<u8>)
    requires dst.Length >= 26 && |len| == 2 && nonce.Length == 24 && dst != nonce
    modifies dst
    ensures dst[..] == Put(old(dst[..]), 0, len + nonce[..])
  {
    dst[0], dst[1] := len[0], len[1];
    var i := 0;
    while i < 24
      invariant 0 <= i <= 24
      invariant dst[0] == len[0] && dst[1] == len[1]
      invariant forall j :: 2 <= j < 2 + i ==> dst[j] == nonce[j - 2]
      invariant forall j :: 2 + i <= j < dst.Length ==> dst[j] == old(dst[j])
    {
      dst[2 + i] := nonce[i];
      i := i + 1;
    }
  }

  /** n bytes of the plaintext owed were written at pos, and nothing else changed in the buffer. */
  ghost predicate Received(before: seq<u8>, after: seq<u8>, pos: nat, ret: int, owed: seq<u8>, owed': seq<u8>) {
    var n := if ret > 0 then ret else 0;
    && |after| == |before| && pos + n <= |before|
    && after[..pos] == before[..pos] && after[pos + n..] == before[pos + n..]
    && owed == after[pos..pos + n] + owed'
  }

  lemma ReceivedPut(before: seq<u8>, pos: nat, data: seq<u8>, owed': seq<u8>)
    requires pos + |data| <= |before|
    ensures Received(before, Put(before, pos, data), pos, |data|, data + owed', owed')
  {
    assert Put(before, pos, data)[pos..pos + |data|] == data;
  }

  lemma ReceivedOut(before: seq<u8>, pos: nat, data: seq<u8>, ret: int, owed': seq<u8>)
    requires pos + |data| <= |before| && (ret == |data| || (ret <= 0 && data == []))
    ensures Received(before, Put(before, pos, data), pos, ret, data + owed', owed')
  {
    ReceivedPut(before, pos, data, owed');
  }

  lemma PutAll(s: seq<u8>)
    ensures Put(s, 0, Zeros(|s|)) == Zeros(|s|)
  {
  }

  lemma PutSlice(s: seq<u8>, m: seq<u8>, k: nat)
    requires k <= |m| <= |s|
    ensures Put(s, 0, m)[k..|m|] == m[k..]
  {
    assert Put(s, 0, m)[..|m|] == m;
  }

  /** `memmove(b, b + from, len)` */
  method MoveDown(b: array<u8>, from: nat, len: nat)
    requires from + len <= b.Length
    modifies b
    ensures b[..] == Put(old(b[..]), 0, old(b[from..from + len]))
  {
    ghost var was := b[..];
    var i := 0;
    while i < len
      invariant 0 <= i <= len
      invariant forall j :: 0 <= j < i ==> b[j] == was[from + j]
      invariant forall j :: i <= j < b.Length ==> b[j] == was[j]
    {
      b[i] := b[from + i];
      i := i + 1;
    }
    assert b[..] == Put(was, 0, was[from..from + len]);
  }

  /** `memcpy` */
  method CopyBytes(dst: array<u8>, dPos: nat, src: array<u8>, sPos: nat, len: nat)
    requires dPos + len <= dst.Length && sPos + len <= src.Length && dst != src
    modifies dst
    ensures dst[..] == Put(old(dst[..]), dPos, src[sPos..sPos + len])
  {
    var i := 0;
    while i < len
      invariant 0 <= i <= len
      invariant forall j :: dPos <= j < dPos + i ==> dst[j] == src[sPos + j - dPos]
      invariant forall j :: 0 <= j < dPos || dPos + i <= j < dst.Length ==> dst[j] == old(dst[j])
    {
      dst[dPos + i] := src[sPos + i];
      i := i + 1;
    }
  }
}
