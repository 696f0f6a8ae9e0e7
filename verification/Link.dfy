/** Two netnacl endpoints joined by a pair of wires, under every schedule of calls. */
module Link {
  import opened Bits
  import opened StreamSpec
  import opened CryptoBox
  import opened Records
  import opened Receiving
  import opened Wires
  import opened LinkSpec
  import opened NetNacl

  ghost predicate Connected(x: Endpoint, y: Endpoint) {
    && x.Shape() && y.Shape()
    && x.out == y.inp && y.out == x.inp
    && x.Repr() !! y.Repr()
  }

  ghost predicate Healthy(x: Endpoint)
    reads x, x.pk, x.sk, x.symKey, x.peerPk, x.inp, x.out
  {
    x.Shape() && x.SendShape() && x.KeyShape() && x.inp.Valid() && x.out.Valid()
  }

  /** The direction from x to y. */
  ghost predicate OneWay(x: Endpoint, y: Endpoint, fl: Flow)
    requires x.Shape() && y.Shape() && x.SendShape()
    reads x, x.pk, x.sendBuf, x.symKey, x.out
    reads y, y.peerPk, y.recvHdr, y.recvCt, y.recvPt, y.symKey, y.inp
  {
    SenderOk(x.SenderView(), fl) && ReceiverOk(y.ReceiverView(), x.SenderView(), fl)
  }

  ghost predicate Joint(x: Endpoint, y: Endpoint, xy: Flow, yx: Flow)
    reads x, y, x.Repr(), y.Repr(), x.inp, x.out, y.inp, y.out
  {
    && Connected(x, y) && Healthy(x) && Healthy(y)
    && OneWay(x, y, xy) && OneWay(y, x, yx)
  }

  method RecvStep(y: Endpoint, x: Endpoint, buf: array<u8>, pos: nat, len: nat, ghost xy: Flow, ghost yx: Flow)
    returns (ret: int, ghost xy': Flow)
    requires Joint(x, y, xy, yx) && y.keyBytesRecvd == 32
    requires pos + len <= buf.Length && buf !in x.Repr() && buf !in y.Repr()
    modifies y`recvPtPos, y`recvPtLen, y`hdrBytesRecvd, y`ctBytesRecvd, y.recvHdr, y.recvPt, y.recvCt
    modifies y.inp`taken, y.inp`recvs, buf
    ensures Joint(x, y, xy', yx)
    ensures xy'.frames == xy.frames && xy'.accepted == xy.accepted
    ensures ret == NN_WANT_READ || ret == NN_ERR || 0 <= ret <= len
    ensures xy'.delivered == xy.delivered + Given(buf[..], pos, ret)
  {
    hide SenderOk, ReceiverOk, Follows, Owed, Received, Healthy;
    HealthyFacts(x);
    HealthyFacts(y);
    ghost var s, r, before := x.SenderView(), y.ReceiverView(), buf[..];
    FollowsOf(r, s, xy);
    ghost var fs;
    ret, fs := RecvBeside(y, x, buf, pos, len, xy.frames[xy.done..], s.remaining);
    xy' := AfterRecv(xy, buf[..], pos, ret, fs);
    HealthyFacts(x);
    HealthyFacts(y);
    Took(s, r, y.ReceiverView(), xy, before, buf[..], pos, ret, fs);
    assert OneWay(x, y, xy');
    hide AfterRecv, Received;
    assert OneWay(y, x, yx);
    hide OneWay;
    assert Connected(x, y) && Healthy(x) && Healthy(y);
  }

  lemma HealthyFacts(x: Endpoint)
    requires Healthy(x)
    ensures x.Shape() && x.SendShape() && x.inp.Valid() && x.out.Valid()
  {
  }

  /** `netnacl_recv` at one end leaves the other end, and its own sending, as they were. */
  method RecvBeside(
      y: Endpoint, x: Endpoint, buf: array<u8>, pos: nat, len: nat, ghost fs: seq<Frame>, ghost tail: seq<u8>)
    returns (ret: int, ghost fs': seq<Frame>)
    requires Connected(x, y) && Healthy(x) && Healthy(y) && y.keyBytesRecvd == 32
    requires pos + len <= buf.Length && buf !in x.Repr() && buf !in y.Repr()
    requires Follows(y.RecvView(), fs, y.symKey[..], y.bigEndian, x.out.sent[y.inp.taken..], tail)
    modifies y`recvPtPos, y`recvPtLen, y`hdrBytesRecvd, y`ctBytesRecvd, y.recvHdr, y.recvPt, y.recvCt
    modifies y.inp`taken, y.inp`recvs, buf
    ensures Healthy(x) && Healthy(y) && y.keyBytesRecvd == 32 && y.inp.taken <= |x.out.sent|
    ensures x.SenderView() == old(x.SenderView()) && x.ReceiverView() == old(x.ReceiverView())
    ensures y.SenderView() == old(y.SenderView())
    ensures y.ReceiverView() == old(y.ReceiverView()).(taken := y.inp.taken, state := y.RecvView())
    ensures old(y.inp.taken) <= y.inp.taken
    ensures fs' == fs || (fs != [] && fs' == fs[1..])
    ensures Follows(y.RecvView(), fs', y.symKey[..], y.bigEndian, x.out.sent[y.inp.taken..], tail)
    ensures Received(old(buf[..]), buf[..], pos, ret, old(Owed(y.RecvView(), fs)), Owed(y.RecvView(), fs'))
    ensures ret == NN_WANT_READ || ret == NN_ERR || 0 <= ret <= len
  {
    hide Follows, Owed, PublicKey, SharedKey, Received;
    ret, fs' := y.RecvFrames(buf, pos, len, fs, tail);
  }

  /** The bytes that a call which returned ret has put at pos. */
  function Given(after: seq<u8>, pos: nat, ret: int): (r: seq<u8>) {
    if 0 < ret <= |after| - pos then after[pos..pos + ret] else []
  }

  ghost function AfterRecv(fl: Flow, after: seq<u8>, pos: nat, ret: int, fs': seq<Frame>): (r: Flow)
    requires |fs'| <= |fl.frames|
  {
    fl.(done := |fl.frames| - |fs'|, delivered := fl.delivered + Given(after, pos, ret))
  }

  /** One `netnacl_recv` keeps the receiver in step with the sender. */
  lemma Took(
      s: Sender, r: Receiver, r': Receiver, fl: Flow,
      before: seq<u8>, after: seq<u8>, pos: nat, ret: int, fs': seq<Frame>)
    requires SenderOk(s, fl) && ReceiverOk(r, s, fl) && r.keyRecvd == 32
    requires r' == r.(taken := r'.taken, state := r'.state) && r.taken <= r'.taken <= |s.sent|
    requires var fs := fl.frames[fl.done..];
             && (fs' == fs || (fs != [] && fs' == fs[1..]))
             && Received(before, after, pos, ret, Owed(r.state, fs), Owed(r'.state, fs'))
             && Follows(r'.state, fs', r.key, r.big, s.sent[r'.taken..], s.remaining)
    ensures var fl' := AfterRecv(fl, after, pos, ret, fs'); SenderOk(s, fl') && ReceiverOk(r', s, fl')
  {
    hide SenderOk, Follows, Owed;
    SuffixOf(fl.frames[fl.done..], fs');
    RecvKeeps(s, r, r', fl, Given(after, pos, ret), fs');
  }

  lemma FollowsOf(r: Receiver, s: Sender, fl: Flow)
    requires ReceiverOk(r, s, fl)
    ensures r.taken <= |s.sent| && fl.done <= |fl.frames|
    ensures r.keyRecvd == 32 ==>
      Follows(r.state, fl.frames[fl.done..], r.key, r.big, s.sent[r.taken..], s.remaining)
  {
  }

  /** `text` is what the frame that is or will be in flight carries. */
  ghost function FramedText(x: Endpoint, xy: Flow, buf: array<u8>, pos: nat, len: nat): (r: seq<u8>)
    requires pos + len <= buf.Length
    reads x, buf
  {
    if x.sendBufLen == 0 || xy.frames == [] then buf[pos..pos + Min(len, 4096)]
    else xy.frames[|xy.frames| - 1].text
  }

  /** A frame for the text is made if none was in flight; it is accepted once the wire has it all. */
  ghost predicate Sends(fl: Flow, fl': Flow, isNew: bool, left: bool, text: seq<u8>) {
    && fl'.delivered == fl.delivered && fl'.done == fl.done
    && fl'.accepted == fl.accepted + (if left then text else [])
    && (if isNew then |fl'.frames| == |fl.frames| + 1 && fl'.frames[..|fl.frames|] == fl.frames
        else fl'.frames == fl.frames)
    && fl'.frames != [] && fl'.frames[|fl'.frames| - 1].text == text
  }

  method SendStep(x: Endpoint, y: Endpoint, buf: array<u8>, pos: nat, len: nat, ghost xy: Flow, ghost yx: Flow)
    returns (ret: int, ghost xy': Flow)
    requires Joint(x, y, xy, yx) && x.keyBytesRecvd == 32
    requires pos + len <= buf.Length && buf !in x.Repr() && buf !in y.Repr()
    modifies x`sendBufLen, x`sendBufPos, x.sendBuf, x.out`sent, x.out`sends
    ensures Joint(x, y, xy', yx)
    ensures if x.sendBufLen == 0 then ret == Min(len, 4096) else ret == NN_WANT_WRITE || ret == NN_ERR
    ensures Sends(xy, xy', old(x.sendBufLen) == 0, x.sendBufLen == 0, old(FramedText(x, xy, buf, pos, len)))
  {
    hide SenderOk, ReceiverOk, Follows, Owed, PublicKey, SharedKey, Encode, Texts;
    ghost var s, r, f := x.SenderView(), y.ReceiverView(), Record(Zeros(24), []);
    ret, f := x.Send(buf, pos, len);
    ghost var s' := x.SenderView();
    assert LinkSpec.SendStep(s, s', f);
    SendKeepsSender(s, s', xy, f);
    SendKeepsReceiver(s, s', r, xy, f);
    xy' := AfterSend(xy, s.remaining == [], f, s'.remaining);
    AcceptedGrows(s, s', xy, f);
  }

  /** Sending reports exactly the text of the frame that has left, and only when it has left. */
  lemma AcceptedGrows(s: Sender, s': Sender, fl: Flow, f: Frame)
    requires SenderOk(s, fl) && (s.remaining != [] ==> fl.frames != [])
    ensures var isNew := s.remaining == []; var fl' := AfterSend(fl, isNew, f, s'.remaining);
            fl'.accepted == fl.accepted
                            + if s'.remaining != [] then []
                              else if isNew then f.text else fl.frames[|fl.frames| - 1].text
  {
    hide EncodeAll, Texts;
    var n := |fl.frames| - 1;
    TextsConcat(fl.frames, [f]);
    TextsOne(f);
    assert (fl.frames + [f])[..|fl.frames|] == fl.frames;
    if s.remaining != [] {
      assert fl.frames == fl.frames[..n] + [fl.frames[n]];
      TextsConcat(fl.frames[..n], [fl.frames[n]]);
      TextsOne(fl.frames[n]);
    }
  }

  /** The peer's key is complete: what the receiver holds is what the sender is. */
  lemma PeerKeyIs(s: Sender, r: Receiver, r': Receiver, fl: Flow)
    requires r.keyRecvd <= r'.keyRecvd == 32 && r'.taken == r.taken + (32 - r.keyRecvd) <= |s.sent|
    requires |r.peerPk| == 32 && r'.peerPk == Put(r.peerPk, r.keyRecvd, s.sent[r.taken..r'.taken])
    requires SenderOk(s, fl) && ReceiverOk(r, s, fl)
    ensures r'.peerPk == s.pk && s.keySent == 32
  {
    hide Follows, Owed, EncodeAll, Texts;
    if r.keyRecvd < 32 {
      PrefixGrows(r.peerPk, r.keyRecvd, s.sent[r.taken..r'.taken], s.sent);
      KeyComplete(s, fl, r'.peerPk);
    } else {
      assert r'.peerPk == r.peerPk;
    }
  }

  lemma PeerHasKey(s: Sender, r: Receiver, fl: Flow)
    requires ReceiverOk(r, s, fl) && r.keyRecvd == 32
    ensures r.peerPk == s.pk && s.keySent == 32
  {
    hide Follows, Owed;
  }

  method WrapStep(x: Endpoint, y: Endpoint, ghost xy: Flow, ghost yx: Flow) returns (ret: int)
    requires Joint(x, y, xy, yx) && SecretsCommute()
    modifies x`keyBytesSent, x`keyBytesRecvd, x.pk, x.sk, x.peerPk, x.symKey
    modifies x.out`sent, x.out`sends, x.inp`taken, x.inp`recvs
    ensures Joint(x, y, xy, yx)
    ensures ret == NN_SUCCESS <==> x.keyBytesRecvd == 32
    ensures x.keyBytesRecvd == 32 && y.keyBytesRecvd == 32 ==> x.symKey[..] == y.symKey[..]
  {
    hide SenderOk, ReceiverOk, SecretsCommute, KeySendStep, KeyRecvStep, Agreed;
    ghost var s, r, sy, ry := x.SenderView(), x.ReceiverView(), y.SenderView(), y.ReceiverView();
    ret := WrapBeside(x, y);
    SameSecret(x, y);
    KeyStep(s, x.SenderView(), r, x.ReceiverView(), sy, ry, xy, yx);
    BothHold(x.SenderView(), x.ReceiverView(), sy, ry, xy, yx);
  }

  /** `netnacl_wrap` at one end leaves the other end as it was. */
  method WrapBeside(x: Endpoint, y: Endpoint) returns (ret: int)
    requires Connected(x, y) && Healthy(x) && Healthy(y)
    modifies x`keyBytesSent, x`keyBytesRecvd, x.pk, x.sk, x.peerPk, x.symKey
    modifies x.out`sent, x.out`sends, x.inp`taken, x.inp`recvs
    ensures Healthy(x) && Healthy(y)
    ensures y.SenderView() == old(y.SenderView()) && y.ReceiverView() == old(y.ReceiverView())
    ensures KeySendStep(old(x.SenderView()), x.SenderView())
    ensures KeyRecvStep(old(x.ReceiverView()), x.ReceiverView(), y.out.sent)
    ensures ret == NN_SUCCESS <==> x.keyBytesRecvd == 32
  {
    hide PublicKey, SharedKey, Put;
    ret := x.Wrap();
  }

  /** If each holds the other's public key, they hold the same secret. */
  ghost predicate Agreed(s: Sender, r: Receiver, sy: Sender, ry: Receiver) {
    s.ready && sy.ready && r.peerPk == sy.pk && ry.peerPk == s.pk ==> s.key == sy.key
  }

  lemma SameSecret(x: Endpoint, y: Endpoint)
    requires Healthy(x) && Healthy(y) && SecretsCommute()
    ensures Agreed(x.SenderView(), x.ReceiverView(), y.SenderView(), y.ReceiverView())
  {
    hide PublicKey, SharedKey, SecretsCommute;
    KeysAgree(x.sk[..], y.sk[..]);
  }

  /** One step of the key exchange of one side leaves both directions in step. */
  lemma KeyStep(s0: Sender, s: Sender, r0: Receiver, r: Receiver, sy: Sender, ry: Receiver, xy: Flow, yx: Flow)
    requires SenderOk(s0, xy) && ReceiverOk(ry, s0, xy) && SenderOk(sy, yx) && ReceiverOk(r0, sy, yx)
    requires KeySendStep(s0, s) && KeyRecvStep(r0, r, sy.sent) && Agreed(s, r, sy, ry)
    requires (s.ready <==> r.keyRecvd == 32) && s.key == r.key
    requires (sy.ready <==> ry.keyRecvd == 32) && sy.key == ry.key
    ensures SenderOk(s, xy) && ReceiverOk(ry, s, xy) && ReceiverOk(r, sy, yx)
  {
    hide SenderOk, ReceiverOk;
    if s.ready {
      PeerKeyIs(sy, r0, r, yx);
      if sy.ready {
        PeerHasKey(s0, ry, xy);
      }
    }
    KeySendKeeps(s0, s, ry, xy);
    KeyRecvKeeps(sy, r0, r, yx);
  }

  /** Two sides that are both in step and both done hold one key. */
  lemma BothHold(s: Sender, r: Receiver, sy: Sender, ry: Receiver, xy: Flow, yx: Flow)
    requires ReceiverOk(ry, s, xy) && ReceiverOk(r, sy, yx) && Agreed(s, r, sy, ry)
    requires (s.ready <==> r.keyRecvd == 32) && (sy.ready <==> ry.keyRecvd == 32)
    ensures s.ready && sy.ready ==> s.key == sy.key
  {
    hide ReceiverOk;
    if s.ready && sy.ready {
      PeerHasKey(s, ry, xy);
      PeerHasKey(sy, r, yx);
    }
  }

  // ---------- whole runs ----------

  /** What an application may ask of its endpoint; data is only taken on when nothing is left to send. */
  datatype Call = Wrap | Send(data: seq<u8>) | Recv(len: nat)

  datatype App = App(queue: seq<u8>, sent: seq<u8>, got: seq<u8>)

  /** The retry contract: a frame in flight carries the next bytes of the caller's buffer. */
  ghost predicate Retries(x: Endpoint, app: App, xy: Flow)
    reads x
  {
    && xy.accepted == app.sent
    && (x.sendBufLen > 0 ==>
          && xy.frames != [] && app.queue != []
          && xy.frames[|xy.frames| - 1].text == app.queue[..Min(|app.queue|, 4096)])
  }

  /** The application sends what it has queued, or new data when the queue is empty. */
  method SendTurn(x: Endpoint, y: Endpoint, data: seq<u8>, app: App, ghost xy: Flow, ghost yx: Flow)
    returns (app': App, ghost xy': Flow)
    requires Joint(x, y, xy, yx) && Retries(x, app, xy) && x.keyBytesRecvd == 32
    modifies x`sendBufLen, x`sendBufPos, x.sendBuf, x.out`sent, x.out`sends
    ensures Joint(x, y, xy', yx) && Retries(x, app', xy')
    ensures xy'.delivered == xy.delivered && app'.got == app.got
  {
    hide SenderOk, ReceiverOk, PublicKey, SharedKey, Connected, Healthy, OneWay;
    app', xy' := app, xy;
    var queue := if app.queue == [] then data else app.queue;
    var buf := ToArray(queue);
    assert Joint(x, y, xy, yx);
    hide Joint;
    if queue != [] {
      var ret;
      ret, xy' := SendStep(x, y, buf, 0, |queue|, xy, yx);
      assert buf[0..0 + Min(|queue|, 4096)] == queue[..Min(|queue|, 4096)];
      app' := if ret > 0 then App(queue[ret..], app.sent + queue[..ret], app.got) else app.(queue := queue);
      assert xy.accepted + [] == xy.accepted;
    }
  }

  /** One call by the application on x. */
  method Turn(x: Endpoint, y: Endpoint, call: Call, app: App, ghost xy: Flow, ghost yx: Flow)
    returns (app': App, ghost xy': Flow, ghost yx': Flow)
    requires Joint(x, y, xy, yx) && SecretsCommute() && Retries(x, app, xy) && yx.delivered == app.got
    modifies x.Repr(), x.inp, x.out
    ensures Joint(x, y, xy', yx') && Retries(x, app', xy')
    ensures yx'.delivered == app'.got && yx'.accepted == yx.accepted && yx'.frames == yx.frames
    ensures xy'.delivered == xy.delivered && y.sendBufLen == old(y.sendBufLen)
  {
    hide SenderOk, ReceiverOk, PublicKey, SharedKey, SecretsCommute;
    app', xy', yx' := app, xy, yx;
    var buf := new u8[if call.Recv? then call.len else 0];
    assert Joint(x, y, xy, yx);
    hide Joint;
    match call {
      case Wrap =>
        var ret := WrapStep(x, y, xy, yx);
      case Send(data) =>
        if x.keyBytesRecvd == 32 {
          app', xy' := SendTurn(x, y, data, app, xy, yx);
        }
      case Recv(len) =>
        if x.keyBytesRecvd == 32 {
          var ret;
          JointSymmetric(x, y, xy, yx);
          ret, yx' := RecvStep(x, y, buf, 0, len, yx, xy);
          JointSymmetric(y, x, yx', xy);
          app' := app.(got := app.got + Given(buf[..], 0, ret));
        }
    }
  }

  lemma JointSymmetric(x: Endpoint, y: Endpoint, xy: Flow, yx: Flow)
    requires Joint(x, y, xy, yx)
    ensures Joint(y, x, yx, xy)
  {
    hide OneWay, Healthy;
  }

  method ToArray(s: seq<u8>) returns (a: array<u8>)
    ensures fresh(a) && a[..] == s
  {
    a := new u8[|s|](i requires 0 <= i < |s| => s[i]);
  }

  /** Two new endpoints on two new wires. */
  method Connect(bigA: bool, bitsA: nat, bigB: bool, bitsB: nat) returns (a: Endpoint, b: Endpoint)
    requires bitsA >= 32 && bitsB >= 32
    ensures fresh(a.Repr()) && fresh(b.Repr()) && fresh(a.inp) && fresh(a.out)
    ensures a.sendBufLen == 0 && b.sendBufLen == 0
    ensures Joint(a, b, Flow([], 0, [], []), Flow([], 0, [], []))
  {
    hide PublicKey, SharedKey, SenderOk, ReceiverOk;
    var ab := new Wire();
    var ba := new Wire();
    a := new Endpoint(ba, ab, bigA, bitsA);
    assert a.SendShape() && a.KeyShape();
    b := new Endpoint(ab, ba, bigB, bitsB);
    assert Connected(a, b);
    assert Healthy(a) && Healthy(b);
    StartOk(a.SenderView(), b.ReceiverView());
    StartOk(b.SenderView(), a.ReceiverView());
  }

  lemma StartOk(s: Sender, r: Receiver)
    requires s.sent == [] && |s.pk| == 32 && s.keySent == 0 && s.remaining == [] && !s.ready
    requires r.taken == 0 && r.keyRecvd == 0 && |r.peerPk| == 32 && Idle(r.state)
    ensures SenderOk(s, Flow([], 0, [], [])) && ReceiverOk(r, s, Flow([], 0, [], []))
  {
    StartSender(s);
  }

  /**
    Every schedule of calls by the two applications, every way the wires cut
    the streams up: at the end, what one side's `netnacl_send` reported as sent
    is what the other side's `netnacl_recv` returned, then its residue, then the
    text of the frames that are complete and not opened.
  */
  method Run(schedule: seq<(bool, Call)>, bigA: bool, bitsA: nat, bigB: bool, bitsB: nat)
    returns (a: App, b: App, x: Endpoint, y: Endpoint, ghost xy: Flow, ghost yx: Flow)
    requires SecretsCommute() && bitsA >= 32 && bitsB >= 32
    ensures Joint(x, y, xy, yx) && Tracks(x, y, a, b, xy, yx)
    ensures a.sent == b.got + Residue(y.RecvView()) + Texts(Unopened(x.SenderView(), y.ReceiverView(), xy))
    ensures b.sent == a.got + Residue(x.RecvView()) + Texts(Unopened(y.SenderView(), x.ReceiverView(), yx))
  {
    x, y := Connect(bigA, bitsA, bigB, bitsB);
    a, b, xy, yx := RunOn(x, y, schedule);
    JointAccount(x, y, xy, yx);
  }

  method RunOn(x: Endpoint, y: Endpoint, schedule: seq<(bool, Call)>)
    returns (a: App, b: App, ghost xy: Flow, ghost yx: Flow)
    requires SecretsCommute() && x.sendBufLen == 0 && y.sendBufLen == 0
    requires Joint(x, y, Flow([], 0, [], []), Flow([], 0, [], []))
    modifies x.Repr(), y.Repr(), x.inp, x.out
    ensures Joint(x, y, xy, yx) && Tracks(x, y, a, b, xy, yx)
  {
    a, b := App([], [], []), App([], [], []);
    xy, yx := Flow([], 0, [], []), Flow([], 0, [], []);
    hide *;
    var i := 0;
    while i < |schedule|
      invariant 0 <= i <= |schedule|
      invariant Joint(x, y, xy, yx)
      invariant Tracks(x, y, a, b, xy, yx)
    {
      var (first, call) := schedule[i];
      a, b, xy, yx := Step(x, y, first, call, a, b, xy, yx);
      i := i + 1;
    }
  }

  ghost predicate Tracks(x: Endpoint, y: Endpoint, a: App, b: App, xy: Flow, yx: Flow)
    reads x, y
  {
    Retries(x, a, xy) && Retries(y, b, yx) && yx.delivered == a.got && xy.delivered == b.got
  }

  method Step(x: Endpoint, y: Endpoint, first: bool, call: Call, a: App, b: App, ghost xy: Flow, ghost yx: Flow)
    returns (a': App, b': App, ghost xy': Flow, ghost yx': Flow)
    requires Joint(x, y, xy, yx) && SecretsCommute() && Tracks(x, y, a, b, xy, yx)
    modifies x.Repr(), y.Repr(), x.inp, x.out
    ensures Joint(x, y, xy', yx') && Tracks(x, y, a', b', xy', yx')
  {
    hide SecretsCommute, OneWay, Healthy;
    assert x.inp == y.out && x.out == y.inp;
    hide Joint, Connected;
    a', b' := a, b;
    if first {
      a', xy', yx' := Turn(x, y, call, a, xy, yx);
    } else {
      JointSymmetric(x, y, xy, yx);
      b', yx', xy' := Turn(y, x, call, b, yx, xy);
      JointSymmetric(y, x, yx', xy');
    }
  }

  lemma JointAccount(x: Endpoint, y: Endpoint, xy: Flow, yx: Flow)
    requires Joint(x, y, xy, yx)
    ensures x.recvPtPos <= x.recvPtLen <= x.recvPt.Length && y.recvPtPos <= y.recvPtLen <= y.recvPt.Length
    ensures xy.accepted == xy.delivered + Residue(y.RecvView()) + Texts(Unopened(x.SenderView(), y.ReceiverView(), xy))
    ensures yx.accepted == yx.delivered + Residue(x.RecvView()) + Texts(Unopened(y.SenderView(), x.ReceiverView(), yx))
  {
    hide SenderOk, ReceiverOk, PublicKey, SharedKey, Texts, Unopened;
    Account(x.SenderView(), y.ReceiverView(), xy);
    Account(y.SenderView(), x.ReceiverView(), yx);
  }
}
