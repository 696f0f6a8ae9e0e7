/** buf.c: filling a buffer from one side of a connection and emptying it into the other. */
module Bufs {
  import opened Errors
  import opened Bits
  import opened StreamSpec
  import opened CryptoBox
  import opened Records
  import opened Receiving
  import opened Wires
  import opened LinkSpec
  import opened NetNacl
  import Link

  const BUF_SIZ: nat := 16348

  /** `buf_t` */
  class Buf {
    var size: nat
    var readPos: nat
    const data: array<u8>

    constructor ()
      ensures Valid() && size == 0 && fresh(data)
    {
      size, readPos := 0, 0;
      data := new u8[BUF_SIZ](_ => 0);
    }

    ghost predicate Valid()
      reads this
    {
      data.Length == BUF_SIZ && size <= BUF_SIZ && if size == 0 then readPos == 0 else readPos < size
    }

    /** What has been read from one side and not yet been taken by the other. */
    ghost function Unsent(): (r: seq<u8>)
      reads this, data
    {
      if readPos <= size <= data.Length then data[readPos..size] else []
    }
  }

  /** `net_t`, the two byte streams of its socket, and what has passed through it in the clear. */
  class Net {
    var sockFd: int
    const encrypted: bool
    var nn: Endpoint?
    const inp: Wire
    const out: Wire
    const bigEndian: bool
    const wordBits: nat
    /** Plaintext obtained from this side, and plaintext this side has taken. */
    ghost var got: seq<u8>
    ghost var put: seq<u8>
    /** The frames made for this side. */
    ghost var frames: seq<Frame>
    /** What the peer of an encrypted side has to say, its frames not yet finished, and what it never gets out. */
    ghost var says: seq<u8>
    ghost var coming: seq<Frame>
    ghost var unsaid: seq<u8>
    /** All memory of the side, and the part without the wires, which the far end may share. */
    ghost var repr: set<object>
    ghost var mine: set<object>

    /** A side with an open socket on which nothing has moved yet. */
    constructor (sockFd: int, encrypted: bool, inp: Wire, out: Wire, bigEndian: bool, wordBits: nat)
      requires inp != out && wordBits >= 32 && inp.Valid() && out.Valid() && inp.taken == 0 && out.sent == []
      ensures Valid() && repr == {this, inp, out} && mine == {this} && nn == null
      ensures this.sockFd == sockFd && this.encrypted == encrypted && this.inp == inp && this.out == out
      ensures got == [] && put == [] && frames == []
    {
      this.sockFd, this.encrypted, this.inp, this.out := sockFd, encrypted, inp, out;
      this.bigEndian, this.wordBits := bigEndian, wordBits;
      nn, got, put, frames, repr, mine := null, [], [], [], {this, inp, out}, {this};
      says, coming, unsaid := [], [], [];
    }

    ghost predicate Valid()
      reads this, repr
    {
      inp in repr && out in repr && mine <= repr && Own() && out.Valid() && Told()
    }

    /** What does not depend on how far the streams have been read. */
    ghost predicate Own()
      reads this, mine, out`sent
    {
      && repr == mine + {inp, out} && this in mine && inp !in mine && out !in mine && inp != out && wordBits >= 32
      && (!encrypted ==> nn == null && out.sent == put)
      && (encrypted && nn == null && sockFd >= 0 ==> out.sent == [] && put == [] && frames == [])
      && (nn != null ==>
            && nn.Repr() <= mine && this !in nn.Repr() && nn.inp == inp && nn.out == out
            && nn.Shape() && nn.SendShape() && nn.KeyShape()
            && SenderOk(nn.SenderView(), Flow(frames, 0, put, []))
            && (nn.keyBytesRecvd == 32 || Idle(nn.RecvView())))
      && (encrypted && sockFd >= 0 && (nn == null || nn.keyBytesRecvd < 32) ==> got == [])
    }

    /** What was obtained, against the stream it came from. */
    ghost predicate Told()
      requires nn != null ==> nn.Repr() <= mine && nn.Shape()
      reads this, mine, inp
    {
      && inp.Valid()
      && (!encrypted ==> got == inp.sent[..inp.taken])
      && (encrypted ==> got <= says)
      && (nn != null && nn.keyBytesRecvd == 32 ==> Hears())
    }

    /** The peer speaks in frames under the shared key, and all it has said but what was obtained is still to come. */
    ghost predicate Hears()
      requires nn != null && nn.Shape() && inp.Valid()
      reads this, nn, nn.recvHdr, nn.recvCt, nn.recvPt, nn.symKey, inp
    {
      && Follows(nn.RecvView(), coming, nn.symKey[..], nn.bigEndian, inp.Pending(), unsaid)
      && got + Owed(nn.RecvView(), coming) == says
    }

    /** `close` on the socket, and the end of the encryption context. */
    method Shut()
      requires Valid()
      modifies this
      ensures Valid() && sockFd == -1 && nn == null && coming == old(coming)
      ensures repr == old(repr) && mine == old(mine) && got == old(got) && put == old(put) && frames == old(frames)
    {
      sockFd := -1;
      nn := null;
    }

    /** `netnacl_create` */
    method Create()
      requires Valid() && encrypted && sockFd >= 0 && nn == null
      modifies this`nn, this`repr, this`mine
      ensures Valid() && nn != null && !InFlight() && !Ready()
      ensures got == old(got) && put == old(put) && frames == old(frames)
      ensures forall o <- repr :: o in old(repr) || fresh(o)
      ensures fresh(nn.Repr()) && repr == old(repr) + nn.Repr() && mine == old(mine) + nn.Repr()
      ensures nn.keyBytesSent == 0 && nn.keyBytesRecvd == 0
    {
      hide SenderOk, PublicKey, SharedKey;
      nn := new Endpoint(inp, out, bigEndian, wordBits);
      StartSender(nn.SenderView());
      repr, mine := repr + nn.Repr(), mine + nn.Repr();
    }

    /** `netnacl_wrap`, and once the key is there, a peer that speaks under it. */
    method Proceed() returns (ret: int)
      requires Valid() && encrypted && sockFd >= 0 && nn != null
      modifies repr
      ensures Valid() && repr == old(repr) && mine == old(mine) && sockFd == old(sockFd) && nn == old(nn)
      ensures got == old(got) && put == old(put) && frames == old(frames) && InFlight() == old(InFlight())
      ensures ret == WrapAnswer(nn.keyBytesSent, nn.keyBytesRecvd, Last(out.sends), Last(inp.recvs))
      ensures nn.keyBytesSent < 32 ==> old(out.sends) < out.sends && !Last(out.sends).Moved?
      ensures nn.keyBytesSent == 32 && nn.keyBytesRecvd < 32 ==>
        old(inp.recvs) < inp.recvs && !Last(inp.recvs).Moved?
      ensures nn.keyBytesSent <= 32 && nn.keyBytesRecvd <= 32 && (ret == NN_SUCCESS <==> Ready())
    {
      hide SenderOk, PublicKey, SharedKey, Follows, Owed;
      var ready := nn.keyBytesRecvd == 32;
      ret := Agree();
      if !ready && nn.keyBytesRecvd == 32 {
        PeerSpeaks();
      }
    }

    /** `netnacl_wrap`; whoever the peer is, no record byte is read. */
    method Agree() returns (ret: int)
      requires Valid() && encrypted && sockFd >= 0 && nn != null
      modifies mine, out`sent, out`sends, inp`taken, inp`recvs
      ensures Own() && inp.Valid() && out.Valid()
      ensures repr == old(repr) && mine == old(mine) && sockFd == old(sockFd) && nn == old(nn)
      ensures got == old(got) && put == old(put) && frames == old(frames) && InFlight() == old(InFlight())
      ensures says == old(says) && (old(Ready()) || !Ready() ==> Told())
      ensures ret == WrapAnswer(nn.keyBytesSent, nn.keyBytesRecvd, Last(out.sends), Last(inp.recvs))
      ensures nn.keyBytesSent < 32 ==> old(out.sends) < out.sends && !Last(out.sends).Moved?
      ensures nn.keyBytesSent == 32 && nn.keyBytesRecvd < 32 ==>
        old(inp.recvs) < inp.recvs && !Last(inp.recvs).Moved?
      ensures nn.keyBytesSent <= 32 && nn.keyBytesRecvd <= 32 && (ret == NN_SUCCESS <==> Ready())
      ensures nn.RecvView() == old(nn.RecvView())
      ensures KeySendStep(old(nn.SenderView()), nn.SenderView())
      ensures KeyRecvStep(old(nn.ReceiverView()), nn.ReceiverView(), inp.sent)
    {
      hide SenderOk, PublicKey, SharedKey, Follows, Owed;
      ghost var s, fl := nn.SenderView(), Flow(frames, 0, put, []);
      ret := nn.Wrap();
      KeySendSender(s, nn.SenderView(), fl);
    }

    /** The unread part of the stream is the peer's to choose: any frames, cut off anywhere. */
    method PeerSpeaks()
      requires nn != null && nn.Shape() && inp.Valid() && nn.inp == inp && Idle(nn.RecvView()) && got == []
      requires inp != out && nn.out == out
      modifies inp`sent, this`says, this`coming, this`unsaid
      ensures inp.Valid() && Hears() && inp.sent[..inp.taken] == old(inp.sent[..inp.taken])
    {
      hide EncodeAll, Texts, Follows, Owed;
      var peer: seq<Frame>, cut: nat := *, *;
      var stream := EncodeAll(peer, nn.symKey[..]);
      cut := Min(cut, |stream|);
      inp.sent := inp.sent[..inp.taken] + stream[..cut];
      says, coming, unsaid := Texts(peer), peer, stream[cut..];
      assert inp.Pending() == stream[..cut];
      Begins(nn.RecvView(), peer, nn.symKey[..], nn.bigEndian, inp.Pending(), unsaid);
    }

    /** Data can flow: there is nothing to agree on, or it has been agreed on. */
    ghost predicate Ready()
      reads this, repr
    {
      encrypted ==> nn != null && nn in repr && nn.keyBytesRecvd == 32
    }

    /** Part of the public key has still to be sent. */
    ghost predicate KeyUnsent()
      reads this, repr
    {
      nn != null && nn in repr && nn.keyBytesSent < 32
    }

    ghost predicate InFlight()
      reads this, repr
    {
      nn != null && nn in repr && nn.sendBufLen > 0
    }
  }

  lemma Parts(i: Net)
    requires i.Valid()
    ensures i.mine <= i.repr && (i.nn != null ==> i.nn in i.mine)
    ensures i.Own() && i.Told() && i.inp.Valid() && i.out.Valid()
    ensures i in i.mine && i in i.repr && i.inp in i.repr && i.out in i.repr
    ensures i.inp !in i.mine && i.out !in i.mine && i.inp != i.out
  {
  }

  /** What a side has obtained is the beginning of what its peer had to say. */
  lemma ObtainedIsSaid(net: Net)
    requires net.Valid()
    ensures net.encrypted ==> net.got <= net.says
    ensures !net.encrypted ==> net.inp.Valid() && net.got == net.inp.sent[..net.inp.taken] && net.out.sent == net.put
  {
  }

  /** The retry contract: a frame in flight carries the next bytes of the buffer. */
  ghost predicate Retries(net: Net, buf: Buf)
    reads net, net.repr, buf, buf.data
  {
    net.InFlight() ==> Carries(net.frames, buf.Unsent())
  }

  ghost function LastText(frames: seq<Frame>): (r: seq<u8>) {
    if frames == [] then [] else frames[|frames| - 1].text
  }

  /** The buffer is no part of the side. */
  ghost predicate Outside(net: Net, buf: Buf)
    reads net
  {
    buf !in net.repr && buf.data !in net.repr && buf !in net.mine && buf.data !in net.mine
  }

  /** The last frame carries the first bytes of what is unsent. */
  ghost predicate Carries(frames: seq<Frame>, unsent: seq<u8>) {
    frames != [] && unsent != [] && LastText(frames) == unsent[..Min(|unsent|, 4096)]
  }

  /** What the far end of an encrypted side depends on. */
  datatype Ends = NoEnds | Ends(
    s: Sender, r: Receiver, frames: seq<Frame>, coming: seq<Frame>, unsaid: seq<u8>, says: seq<u8>)

  ghost function EndsOf(net: Net): (r: Ends)
    reads net, net.mine, net.out`sent, net.inp`taken
  {
    if net.nn != null && net.nn.Repr() <= net.mine && net.nn.Shape() && net.nn.SendShape()
       && net.nn.inp == net.inp && net.nn.out == net.out
    then Ends(net.nn.SenderView(), net.nn.ReceiverView(), net.frames, net.coming, net.unsaid, net.says)
    else NoEnds
  }

  ghost predicate SendsOn(e: Ends, e': Ends) {
    if e.NoEnds? || e'.NoEnds? then e == e'
    else Grew(e.s, e'.s, e.frames, e'.frames) && e' == e.(s := e'.s, frames := e'.frames)
  }

  ghost predicate ReadsOn(e: Ends, e': Ends) {
    if e.NoEnds? || e'.NoEnds? then e == e'
    else Heard(e.r, e'.r, e.coming, e'.coming) && e' == e.(r := e'.r, coming := e'.coming)
  }

  lemma SendsOnRefl(e: Ends)
    ensures SendsOn(e, e) && ReadsOn(e, e)
  {
  }

  lemma SendsOnTrans(e0: Ends, e1: Ends, e2: Ends)
    requires SendsOn(e0, e1) && SendsOn(e1, e2)
    ensures SendsOn(e0, e2)
  {
  }

  lemma ReadsOnTrans(e0: Ends, e1: Ends, e2: Ends)
    requires ReadsOn(e0, e1) && ReadsOn(e1, e2)
    ensures ReadsOn(e0, e2)
  {
    if e0.Ends? {
      var a, b, c := e0.coming, e1.coming, e2.coming;
      assert a[|a| - |b|..][|b| - |c|..] == a[|a| - |c|..];
    }
  }

  /** n bytes of the buffer went to the side that took them. */
  ghost predicate Takes(before: seq<u8>, after: seq<u8>, unsent: seq<u8>, n: int) {
    if 0 <= n <= |unsent| then after == before + unsent[..n] else after == before
  }

  lemma Goes(before: seq<u8>, after: seq<u8>, unsent: seq<u8>, n: nat)
    requires n <= |unsent| && Takes(before, after, unsent, n)
    ensures after + unsent[n..] == before + unsent
  {
    assert unsent == unsent[..n] + unsent[n..];
  }

  /** A count below zero means that nothing went. */
  lemma NothingTaken(before: seq<u8>, after: seq<u8>, unsent: seq<u8>, n: int)
    requires n < 0 && Takes(before, after, unsent, n)
    ensures after == before
  {
  }

  /** One `netnacl_send` on the rest of the buffer. */
  method SendFrame(net: Net, buf: Buf) returns (sent: int)
    requires net.Valid() && buf.Valid() && buf.size > 0 && net.encrypted && net.Ready()
    requires Outside(net, buf) && Retries(net, buf)
    modifies net.mine, net.out`sent, net.out`sends
    ensures net.Valid() && net.repr == old(net.repr) && net.mine == old(net.mine)
    ensures net.nn == old(net.nn) && net.sockFd == old(net.sockFd)
    ensures SendsOn(old(EndsOf(net)), EndsOf(net)) && net.coming == old(net.coming)
    ensures net.Ready() && net.got == old(net.got)
    ensures buf.data[..] == old(buf.data[..])
    ensures Takes(old(net.put), net.put, old(buf.Unsent()), sent)
    ensures old(net.out.sends) < net.out.sends
    ensures sent >= 0 ==> 1 <= sent <= buf.size - buf.readPos && !net.InFlight()
    ensures sent < 0 ==> Unfinished(old(net.out.sends), net.out.sends, sent) && Retries(net, buf)
  {
    hide Net.Valid, EndsOf, SendsOn;
    SlicePrefix(buf.data[..], buf.readPos, buf.size);
    assert buf.data[..][buf.readPos..buf.readPos + Min(buf.size - buf.readPos, 4096)]
        == buf.Unsent()[..Min(buf.size - buf.readPos, 4096)];
    ghost var text;
    sent, text := SendOnce(net, buf.data, buf.readPos, buf.size - buf.readPos);
  }

  /** One `netnacl_send`: a frame is made if none is in flight, and its text is put when all of it has gone. */
  method SendOnce(net: Net, data: array<u8>, pos: nat, len: nat) returns (ret: int, ghost text: seq<u8>)
    requires net.Valid() && net.encrypted && net.Ready() && pos + len <= data.Length && data !in net.mine
    modifies net.mine, net.out`sent, net.out`sends
    ensures net.Valid() && net.repr == old(net.repr) && net.mine == old(net.mine)
    ensures net.nn == old(net.nn) && net.sockFd == old(net.sockFd)
    ensures SendsOn(old(EndsOf(net)), EndsOf(net)) && net.coming == old(net.coming)
    ensures net.Ready() && net.got == old(net.got) && data[..] == old(data[..])
    ensures old(net.out.sends) < net.out.sends
    ensures net.frames != [] && LastText(net.frames) == text
    ensures text == if old(net.InFlight()) then LastText(old(net.frames)) else FirstOf(old(data[..]), pos, len)
    ensures if net.InFlight() then net.put == old(net.put) && Unfinished(old(net.out.sends), net.out.sends, ret)
            else net.put == old(net.put) + text && ret == Min(len, 4096)
  {
    hide SenderOk, PublicKey, SharedKey, Encode, Follows, Owed, EncodeAll, Texts;
    ghost var fl';
    ret, fl', text := Emit(net, data, pos, len);
    hide Endpoint.KeyShape, Endpoint.RecvView, Endpoint.Remaining;
    net.frames, net.put := fl'.frames, fl'.accepted;
  }

  /** `netnacl_send` on the side's context; the history is written down afterwards. */
  method Emit(net: Net, data: array<u8>, pos: nat, len: nat) returns (ret: int, ghost fl: Flow, ghost text: seq<u8>)
    requires net.Valid() && net.nn != null && net.nn.keyBytesRecvd == 32 && pos + len <= data.Length
    requires data !in net.mine
    modifies net.nn`sendBufLen, net.nn`sendBufPos, net.nn.sendBuf, net.out`sent, net.out`sends
    ensures net.Told() && net.inp.Valid() && net.out.Valid() && net.nn.KeyShape() && net.nn.SendShape()
    ensures net.nn.ReceiverView() == old(net.nn.ReceiverView()) && fl.done == 0 && fl.delivered == []
    ensures SenderOk(net.nn.SenderView(), fl)
    ensures Grew(old(net.nn.SenderView()), net.nn.SenderView(), net.frames, fl.frames)
    ensures fl.frames != [] && LastText(fl.frames) == text && old(net.out.sends) < net.out.sends
    ensures text == if old(net.nn.sendBufLen) > 0 then LastText(net.frames) else FirstOf(old(data[..]), pos, len)
    ensures if net.nn.sendBufLen > 0 then fl.accepted == net.put && Unfinished(old(net.out.sends), net.out.sends, ret)
            else fl.accepted == net.put + text && ret == Min(len, 4096)
  {
    hide SenderOk, PublicKey, SharedKey, Encode, Follows, Owed, EncodeAll, Texts;
    ghost var s, f := net.nn.SenderView(), Record(Zeros(24), []);
    fl := Flow(net.frames, 0, net.put, []);
    ret, f := net.nn.Send(data, pos, len);
    ghost var s' := net.nn.SenderView();
    SendKeepsSender(s, s', fl, f);
    Link.AcceptedGrows(s, s', fl, f);
    assert net.nn.RecvView() == old(net.nn.RecvView()) && net.nn.KeyShape();
    hide Endpoint.KeyShape, Endpoint.RecvView, Endpoint.Remaining;
    fl := AfterSend(fl, s.remaining == [], f, s'.remaining);
    text := LastText(fl.frames);
  }

  /** What a new frame takes of the bytes offered. */
  ghost function FirstOf(s: seq<u8>, pos: nat, len: nat): (r: seq<u8>)
    requires pos + len <= |s|
  {
    s[pos..pos + Min(len, 4096)]
  }

  lemma SlicePrefix(s: seq<u8>, from: nat, to: nat)
    requires from <= to <= |s|
    ensures forall n :: 0 <= n <= to - from ==> s[from..to][..n] == s[from..from + n]
  {
  }

  /** One `send` on the rest of the buffer; a closed descriptor is refused. */
  method SendPlain(net: Net, buf: Buf) returns (r: Io)
    requires net.Valid() && buf.Valid() && buf.size > 0 && !net.encrypted
    requires Outside(net, buf)
    modifies net.mine, net.out`sent, net.out`sends
    ensures net.Valid() && net.repr == old(net.repr) && net.mine == old(net.mine)
    ensures net.nn == old(net.nn) && net.sockFd == old(net.sockFd)
    ensures SendsOn(old(EndsOf(net)), EndsOf(net)) && net.coming == old(net.coming)
    ensures net.got == old(net.got) && buf.data[..] == old(buf.data[..])
    ensures r.Moved? ==> 1 <= r.n <= buf.size - buf.readPos
    ensures if net.sockFd < 0 then r == Failed(false) && net.out.sends == old(net.out.sends)
            else net.out.sends == old(net.out.sends) + [r] && !r.Closed?
    ensures Takes(old(net.put), net.put, old(buf.Unsent()), if r.Moved? then r.n else -1)
  {
    if net.sockFd < 0 {
      // EBADF
      return Failed(false);
    }
    SlicePrefix(buf.data[..], buf.readPos, buf.size);
    r := net.out.Write(buf.data, buf.readPos, buf.size - buf.readPos);
    if r.Moved? {
      assert buf.data[..][buf.readPos..buf.readPos + r.n] == buf.Unsent()[..r.n];
      net.put := net.put + buf.data[buf.readPos..buf.readPos + r.n];
    }
  }

  /** One turn of the loop: how many bytes the side took, or why it took none. */
  method SendSome(net: Net, buf: Buf) returns (sent: int, err: int)
    requires net.Valid() && buf.Valid() && buf.size > 0 && Sendable(net)
    requires Outside(net, buf) && Retries(net, buf)
    modifies net.mine, net.out`sent, net.out`sends
    ensures net.Valid() && net.repr == old(net.repr) && net.mine == old(net.mine)
    ensures net.nn == old(net.nn) && net.sockFd == old(net.sockFd)
    ensures SendsOn(old(EndsOf(net)), EndsOf(net)) && net.coming == old(net.coming)
    ensures Sendable(net) && net.got == old(net.got) && buf.data[..] == old(buf.data[..])
    ensures Takes(old(net.put), net.put, old(buf.Unsent()), sent)
    ensures sent >= 0 ==> 1 <= sent <= buf.size - buf.readPos && err == PROXY_SUCCESS
    ensures sent >= 0 ==> !net.InFlight() && net.sockFd >= 0
    ensures sent < 0 ==> Retries(net, buf)
    ensures sent < 0 ==> err == PROXY_WOULD_BLOCK || err == PROXY_DISCONNECT || err == PROXY_ERR
    ensures sent < 0 && net.sockFd >= 0 ==> SendStopped(old(net.out.sends), net.out.sends, err)
    ensures net.sockFd < 0 && !net.encrypted ==> err == PROXY_ERR
    ensures old(net.out.sends) <= net.out.sends
  {
    hide Net.Valid, EndsOf, SendsOn, Carries;
    PlainHasNoContext(net);
    SendsOnRefl(EndsOf(net));
    if net.encrypted && net.nn == null {
      // netnacl_send refuses a null context, and errno is whatever an earlier call left there
      var stale: Io := *;
      return -1, SendError(stale);
    }
    if net.encrypted {
      sent := SendFrame(net, buf);
      err := if sent >= 0 then PROXY_SUCCESS else SendError(Last(net.out.sends));
    } else {
      var r := SendPlain(net, buf);
      sent := if r.Moved? then r.n else -1;
      err := if r.Moved? then PROXY_SUCCESS else SendError(r);
    }
  }

  /** What `buf_send` makes of errno. */
  function SendError(r: Io): (err: int) {
    match r
    case Blocked => PROXY_WOULD_BLOCK
    case Failed(true) => PROXY_DISCONNECT
    case _ => PROXY_ERR
  }

  /** A call of `send` has come back without taking more, and its outcome is the answer. */
  ghost predicate SendStopped(before: seq<Io>, after: seq<Io>, err: int) {
    before < after && !Last(after).Moved? && err == SendError(Last(after))
  }

  lemma PlainHasNoContext(net: Net)
    requires net.Valid()
    ensures !net.encrypted ==> net.nn == null
  {
  }

  lemma ContextInside(net: Net)
    requires net.Valid()
    ensures net in net.repr && (net.nn != null ==> net.nn in net.repr)
  {
  }

  /** An open side is past its key exchange; a closed encrypted side has lost its context. */
  ghost predicate Sendable(net: Net)
    reads net, net.repr
  {
    (net.sockFd >= 0 ==> net.Ready()) && (net.sockFd < 0 && net.encrypted ==> net.nn == null)
  }

  /**
    `buf_send`: whatever the side takes is the next part of the buffer, in order
    and once; success means that it has taken everything.
  */
  method BufSend(net: Net, buf: Buf) returns (err: int)
    requires net.Valid() && buf.Valid() && buf.size > 0 && Sendable(net)
    requires Outside(net, buf) && Retries(net, buf)
    modifies net.mine, net.out`sent, net.out`sends, buf
    ensures net.Valid() && net.repr == old(net.repr) && net.mine == old(net.mine)
    ensures net.nn == old(net.nn) && net.sockFd == old(net.sockFd)
    ensures SendsOn(old(EndsOf(net)), EndsOf(net)) && net.coming == old(net.coming)
    ensures Sendable(net) && net.got == old(net.got)
    ensures buf.Valid() && Retries(net, buf)
    ensures net.put + buf.Unsent() == old(net.put + buf.Unsent())
    ensures err == PROXY_SUCCESS <==> buf.size == 0
    ensures err == PROXY_SUCCESS ==> net.sockFd >= 0
    ensures net.sockFd < 0 && !net.encrypted ==> err == PROXY_ERR
    ensures net.sockFd >= 0 && err != PROXY_SUCCESS ==> SendStopped(old(net.out.sends), net.out.sends, err)
    ensures err == PROXY_SUCCESS || err == PROXY_WOULD_BLOCK || err == PROXY_DISCONNECT || err == PROXY_ERR
  {
    hide Net.Valid, Net.Ready, Carries, Takes, EndsOf, SendsOn;
    SendsOnRefl(EndsOf(net));
    ghost var all := net.put + buf.Unsent();
    while buf.readPos < buf.size
      invariant net.Valid() && net.repr == old(net.repr) && net.mine == old(net.mine)
      invariant net.nn == old(net.nn) && net.sockFd == old(net.sockFd)
      invariant SendsOn(old(EndsOf(net)), EndsOf(net)) && net.coming == old(net.coming)
      invariant Sendable(net) && net.got == old(net.got)
      invariant buf.data[..] == old(buf.data[..]) && buf.size == old(buf.size) && buf.readPos <= buf.size
      invariant net.put + buf.Unsent() == all && old(net.out.sends) <= net.out.sends
      invariant if buf.readPos < buf.size then Retries(net, buf) else !net.InFlight() && net.sockFd >= 0
      decreases buf.size - buf.readPos
    {
      var sent;
      ghost var u, p, e := buf.Unsent(), net.put, EndsOf(net);
      sent, err := SendSome(net, buf);
      SendsOnTrans(old(EndsOf(net)), e, EndsOf(net));
      if sent < 0 {
        NothingTaken(p, net.put, u, sent);
        return;
      }
      buf.readPos := buf.readPos + sent;
      assert buf.Unsent() == u[sent..];
      Goes(p, net.put, u, sent);
    }
    buf.readPos, buf.size := 0, 0;
    return PROXY_SUCCESS;
  }

  /** One `netnacl_recv` into the rest of the buffer, on a stream of frames. */
  method RecvFrame(net: Net, buf: Buf)
    returns (n: nat, why: Io)
    requires net.Valid() && buf.data.Length == BUF_SIZ && buf.size < BUF_SIZ && net.encrypted && net.Ready()
    requires Outside(net, buf)
    modifies net.mine, net.inp`taken, net.inp`recvs, buf.data
    ensures net.Valid() && net.repr == old(net.repr) && net.mine == old(net.mine)
    ensures net.nn == old(net.nn) && net.sockFd == old(net.sockFd)
    ensures ReadsOn(old(EndsOf(net)), EndsOf(net))
    ensures net.Ready() && net.put == old(net.put) && net.frames == old(net.frames)
    ensures net.InFlight() == old(net.InFlight())
    ensures n <= BUF_SIZ - buf.size && (why.Moved? <==> n > 0)
    ensures old(net.inp.recvs) <= net.inp.recvs
    ensures n == 0 ==> Halted(old(net.inp.recvs), net.inp.recvs, AtEnd(net), Stuck(net), why)
    ensures Fills(buf, old(buf.data[..]), n, old(net.got), net.got)
  {
    hide Net.Valid, EndsOf, ReadsOn;
    var k := RecvOnce(net, buf.data, buf.size, BUF_SIZ - buf.size);
    n := if k > 0 then k else 0;
    why := if k > 0 then Moved(k) else if k == 0 then Closed else if k == NN_WANT_READ then Blocked
           else Last(net.inp.recvs);
    FillsFrom(buf, old(buf.data[..]), n, old(net.got));
  }

  /** One `netnacl_recv`, on a stream of frames. */
  method RecvOnce(net: Net, data: array<u8>, pos: nat, len: nat) returns (ret: int)
    requires net.Valid() && net.encrypted && net.Ready() && pos + len <= data.Length && data !in net.mine
    modifies net.mine, net.inp`taken, net.inp`recvs, data
    ensures net.Valid() && net.repr == old(net.repr) && net.mine == old(net.mine)
    ensures net.nn == old(net.nn) && net.sockFd == old(net.sockFd)
    ensures ReadsOn(old(EndsOf(net)), EndsOf(net))
    ensures net.Ready() && net.put == old(net.put) && net.frames == old(net.frames)
    ensures net.InFlight() == old(net.InFlight())
    ensures ret == NN_WANT_READ || ret == NN_ERR || 0 <= ret <= len
    ensures old(net.inp.recvs) <= net.inp.recvs
    ensures ret <= 0 && len > 0 ==>
      || (Stopped(old(net.inp.recvs), net.inp.recvs, ret) && (ret == 0 ==> net.inp.taken == |net.inp.sent|))
      || (ret == 0 && Stuck(net))
    ensures data[..][..pos] == old(data[..])[..pos]
    ensures net.got == old(net.got) + data[pos..pos + if ret > 0 then ret else 0]
  {
    hide SenderOk, PublicKey, SharedKey, Follows, Owed, Received, Heard;
    ghost var fs;
    ghost var before, g, owed := data[..], net.got, Owed(net.nn.RecvView(), net.coming);
    ret, fs := Obtain(net, data, pos, len);
    GotMore(before, data[..], pos, ret, g, owed, Owed(net.nn.RecvView(), fs));
    hide Endpoint.KeyShape, Endpoint.SenderView, Endpoint.RecvView;
    net.coming, net.got := fs, net.got + data[..][pos..pos + if ret > 0 then ret else 0];
  }

  lemma GotMore(before: seq<u8>, after: seq<u8>, pos: nat, ret: int, got: seq<u8>, owed: seq<u8>, owed': seq<u8>)
    requires Received(before, after, pos, ret, owed, owed')
    ensures |before| == |after| && pos + (if ret > 0 then ret else 0) <= |after| && after[..pos] == before[..pos]
    ensures got + owed == (got + after[pos..pos + if ret > 0 then ret else 0]) + owed'
  {
    Associate(got, after[pos..pos + if ret > 0 then ret else 0], owed');
  }

  /** `netnacl_recv` on the side's context; the history is written down afterwards. */
  method Obtain(net: Net, data: array<u8>, pos: nat, len: nat) returns (ret: int, ghost fs: seq<Frame>)
    requires net.Valid() && net.nn != null && net.nn.keyBytesRecvd == 32
    requires pos + len <= data.Length && data !in net.mine
    modifies net.nn, net.nn.recvHdr, net.nn.recvPt, net.nn.recvCt, net.inp`taken, net.inp`recvs, data
    ensures net.Own() && net.inp.Valid() && net.out.Valid() && net.nn.keyBytesRecvd == 32
    ensures net.nn.SenderView() == old(net.nn.SenderView()) && net.nn.sendBufLen == old(net.nn.sendBufLen)
    ensures Heard(old(net.nn.ReceiverView()), net.nn.ReceiverView(), net.coming, fs)
    ensures Follows(net.nn.RecvView(), fs, net.nn.symKey[..], net.nn.bigEndian, net.inp.Pending(), net.unsaid)
    ensures Received(old(data[..]), data[..], pos, ret,
                     old(Owed(net.nn.RecvView(), net.coming)), Owed(net.nn.RecvView(), fs))
    ensures ret == NN_WANT_READ || ret == NN_ERR || 0 <= ret <= len
    ensures old(net.inp.recvs) <= net.inp.recvs
    ensures ret <= 0 && len > 0 ==>
      || (Stopped(old(net.inp.recvs), net.inp.recvs, ret) && (ret == 0 ==> net.inp.taken == |net.inp.sent|))
      || (ret == 0 && NoText(net.nn.RecvView(), fs))
  {
    hide SenderOk, PublicKey, SharedKey, Follows, Owed, Received;
    ret, fs := net.nn.RecvFrames(data, pos, len, net.coming, net.unsaid);
    assert net.nn.SenderView() == old(net.nn.SenderView()) && net.nn.KeyShape() && net.nn.SendShape();
    hide Endpoint.KeyShape, Endpoint.SenderView, Endpoint.RecvView;
    SuffixOf(net.coming, fs);
  }

  /** A record without a text stands in the fields: it is never handed out, and `netnacl_recv` returns 0. */
  ghost predicate Stuck(net: Net)
    reads net, net.repr
  {
    && net.encrypted && net.nn != null && net.nn in net.repr && net.nn.hdrBytesRecvd == 26
    && net.coming != [] && net.coming[0].text == [] && net.nn.ctBytesRecvd == 32
  }

  /** The next record of the peer has no text. */
  ghost predicate NoTextNext(net: Net)
    reads net
  {
    net.encrypted && net.coming != [] && net.coming[0].text == []
  }

  /** The side has ended: its stream was read to the end, or a record without a text came, which reads like an end. */
  ghost predicate Ended(net: Net)
    reads net, net.inp
  {
    (AtEnd(net) && Last(net.inp.recvs).Closed?) || NoTextNext(net)
  }

  /** The whole stream has been read. */
  ghost predicate AtEnd(net: Net)
    reads net, net.inp
  {
    net.inp.taken == |net.inp.sent|
  }

  /**
    Why a turn of the loop brought nothing: the last outcome on the wire, which
    is an end only where the stream ends, or a record without a text.
  */
  ghost predicate Halted(before: seq<Io>, after: seq<Io>, atEnd: bool, stuck: bool, why: Io) {
    || (before < after && why == Last(after) && !why.Moved? && (why.Closed? ==> atEnd))
    || (why.Closed? && stuck)
  }

  /** n new bytes stand after the first `size` in the buffer, and they are what was obtained. */
  ghost predicate Fills(buf: Buf, before: seq<u8>, n: int, got: seq<u8>, got': seq<u8>)
    reads buf, buf.data
  {
    var k := if n > 0 then n else 0;
    && buf.size + k <= buf.data.Length == |before|
    && buf.data[..buf.size] == before[..buf.size]
    && got' == got + buf.data[buf.size..buf.size + k]
  }

  lemma FillsFrom(buf: Buf, before: seq<u8>, n: int, got: seq<u8>)
    requires |before| == buf.data.Length && buf.size + (if n > 0 then n else 0) <= |before|
    requires buf.data[..][..buf.size] == before[..buf.size]
    ensures Fills(buf, before, n, got, got + buf.data[buf.size..buf.size + if n > 0 then n else 0])
  {
    assert buf.data[..buf.size] == buf.data[..][..buf.size];
  }

  /** One `recv` into the rest of the buffer. */
  method RecvPlain(net: Net, buf: Buf) returns (n: nat, r: Io)
    requires net.Valid() && buf.data.Length == BUF_SIZ && buf.size < BUF_SIZ && !net.encrypted
    requires Outside(net, buf)
    modifies net.mine, net.inp`taken, net.inp`recvs, buf.data
    ensures net.Valid() && net.repr == old(net.repr) && net.mine == old(net.mine)
    ensures net.nn == old(net.nn) && net.sockFd == old(net.sockFd)
    ensures ReadsOn(old(EndsOf(net)), EndsOf(net))
    ensures net.Ready() && net.put == old(net.put) && net.frames == old(net.frames)
    ensures net.InFlight() == old(net.InFlight())
    ensures n <= BUF_SIZ - buf.size && (r.Moved? <==> n > 0)
    ensures old(net.inp.recvs) <= net.inp.recvs
    ensures n == 0 ==> Halted(old(net.inp.recvs), net.inp.recvs, AtEnd(net), Stuck(net), r)
    ensures Fills(buf, old(buf.data[..]), n, old(net.got), net.got)
  {
    hide Net.Valid, EndsOf, ReadsOn, Net.InFlight, Net.Ready;
    Parts(net);
    r := ReadOnce(net, buf.data, buf.size, BUF_SIZ - buf.size);
    n := if r.Moved? then r.n else 0;
    FillsFrom(buf, old(buf.data[..]), n, old(net.got));
  }

  /** One `recv` on a plain side. */
  method ReadOnce(net: Net, data: array<u8>, pos: nat, len: nat) returns (r: Io)
    requires net.Valid() && !net.encrypted && pos + len <= data.Length && len > 0 && data !in net.mine
    modifies net`got, net.inp`taken, net.inp`recvs, data
    ensures net.Valid() && ReadsOn(old(EndsOf(net)), EndsOf(net))
    ensures net.Ready() && net.InFlight() == old(net.InFlight())
    ensures r.Moved? ==> 1 <= r.n <= len
    ensures net.inp.recvs == old(net.inp.recvs) + [r] && (r.Closed? ==> net.inp.taken == |net.inp.sent|)
    ensures data[..][..pos] == old(data[..])[..pos]
    ensures net.got == old(net.got) + data[pos..pos + if r.Moved? then r.n else 0]
  {
    hide SenderOk, Put;
    ghost var t, before := net.inp.taken, data[..];
    r := net.inp.Read(data, pos, len);
    if r.Moved? {
      TakenMore(net.inp.sent, t, r.n);
      PutShows(before, pos, net.inp.sent[t..t + r.n]);
      net.got := net.got + data[..][pos..pos + r.n];
    }
  }

  lemma TakenMore(s: seq<u8>, t: nat, n: nat)
    requires t + n <= |s|
    ensures s[..t] + s[t..t + n] == s[..t + n]
  {
  }

  lemma PutShows(s: seq<u8>, pos: nat, x: seq<u8>)
    requires pos + |x| <= |s|
    ensures Put(s, pos, x)[..pos] == s[..pos] && Put(s, pos, x)[pos..pos + |x|] == x
  {
  }

  lemma Filled(before: seq<u8>, after: seq<u8>, size: nat, n: nat, got0: seq<u8>, got: seq<u8>, got': seq<u8>)
    requires |before| == |after| && size + n <= |after| && after[..size] == before[..size]
    requires got == got0 + before[0..size] && got' == got + after[size..size + n]
    ensures got' == got0 + after[0..size + n]
  {
    assert after[0..size + n] == after[..size] + after[size..size + n];
  }

  /** One turn of the loop: a positive count, or zero and why. */
  method RecvSome(net: Net, buf: Buf)
    returns (n: nat, why: Io)
    requires net.Valid() && buf.data.Length == BUF_SIZ && buf.size < BUF_SIZ && net.Ready()
    requires Outside(net, buf)
    modifies net.mine, net.inp`taken, net.inp`recvs, buf.data
    ensures net.Valid() && net.repr == old(net.repr) && net.mine == old(net.mine)
    ensures net.nn == old(net.nn) && net.sockFd == old(net.sockFd)
    ensures ReadsOn(old(EndsOf(net)), EndsOf(net))
    ensures net.Ready() && net.put == old(net.put) && net.frames == old(net.frames)
    ensures net.InFlight() == old(net.InFlight())
    ensures n <= BUF_SIZ - buf.size && (why.Moved? <==> n > 0)
    ensures old(net.inp.recvs) <= net.inp.recvs
    ensures n == 0 ==> Halted(old(net.inp.recvs), net.inp.recvs, AtEnd(net), Stuck(net), why)
    ensures Fills(buf, old(buf.data[..]), n, old(net.got), net.got)
  {
    hide *;
    if net.encrypted {
      n, why := RecvFrame(net, buf);
    } else {
      n, why := RecvPlain(net, buf);
    }
  }

  /**
    The answer of `buf_recv`. The buffer is full, or the loop was halted: by an
    end, by a failure, or because it would have to wait, which is a success if
    there is something in the buffer.
  */
  ghost predicate Answers(before: seq<Io>, after: seq<Io>, atEnd: bool, stuck: bool, size: nat, err: int) {
    || (err == PROXY_SUCCESS && size == BUF_SIZ)
    || (size < BUF_SIZ &&
        if err == PROXY_DISCONNECT then Halted(before, after, atEnd, stuck, Closed)
        else if err == PROXY_ERR then before < after && Last(after).Failed?
        else before < after && Last(after).Blocked? && err == if size == 0 then PROXY_WOULD_BLOCK else PROXY_SUCCESS)
  }

  /**
    `buf_recv`: everything obtained from the side stands in the buffer, in
    order, even when the side then ends or fails.
  */
  method BufRecv(net: Net, buf: Buf) returns (err: int)
    requires net.Valid() && buf.Valid() && buf.size == 0 && net.Ready()
    requires Outside(net, buf)
    modifies net.mine, net.inp`taken, net.inp`recvs, buf, buf.data
    ensures net.Valid() && net.repr == old(net.repr) && net.mine == old(net.mine)
    ensures net.nn == old(net.nn) && net.sockFd == old(net.sockFd)
    ensures ReadsOn(old(EndsOf(net)), EndsOf(net))
    ensures net.Ready() && net.put == old(net.put) && net.frames == old(net.frames)
    ensures net.InFlight() == old(net.InFlight())
    ensures buf.Valid() && net.got == old(net.got) + buf.Unsent()
    ensures err == PROXY_SUCCESS ==> buf.size > 0
    ensures err == PROXY_WOULD_BLOCK ==> buf.size == 0
    ensures err == PROXY_SUCCESS || err == PROXY_WOULD_BLOCK || err == PROXY_DISCONNECT || err == PROXY_ERR
    ensures Answers(old(net.inp.recvs), net.inp.recvs, AtEnd(net), Stuck(net), buf.size, err)
  {
    hide Net.Valid, EndsOf, ReadsOn, Net.Ready, Net.InFlight;
    SendsOnRefl(EndsOf(net));
    while buf.size < BUF_SIZ
      invariant net.Valid() && net.repr == old(net.repr) && net.mine == old(net.mine)
      invariant net.nn == old(net.nn) && net.sockFd == old(net.sockFd)
      invariant net.Ready() && net.put == old(net.put) && net.frames == old(net.frames)
      invariant ReadsOn(old(EndsOf(net)), EndsOf(net))
      invariant net.InFlight() == old(net.InFlight())
      invariant buf.Valid() && buf.readPos == 0 && net.got == old(net.got) + buf.data[0..buf.size]
      invariant old(net.inp.recvs) <= net.inp.recvs
      decreases BUF_SIZ - buf.size
    {
      var n, why;
      ghost var before, g, e := buf.data[..], net.got, EndsOf(net);
      n, why := RecvSome(net, buf);
      ReadsOnTrans(old(EndsOf(net)), e, EndsOf(net));
      Filled(before, buf.data[..], buf.size, n, old(net.got), g, net.got);
      if !why.Moved? {
        return match why
          case Closed => PROXY_DISCONNECT
          case Blocked => if buf.size == 0 then PROXY_WOULD_BLOCK else PROXY_SUCCESS
          case _ => PROXY_ERR;
      }
      buf.size := buf.size + n;
    }
    return PROXY_SUCCESS;
  }
}
