/**
  Two proxies back to back: a client speaks to the outer side of the first, the
  inner sides speak to each other under encryption, and the outer side of the
  second speaks to a server. The inner sides share a pair of wires, and any side
  may be closed at any time.
*/
module Tunnel {
  import opened Bits
  import opened StreamSpec
  import opened CryptoBox
  import opened Records
  import opened Receiving
  import opened Wires
  import opened LinkSpec
  import opened NetNacl
  import opened Bufs
  import opened Proxy
  import Link

  /** One connection of a proxy: the outer and the inner side, and the buffers of what is to be sent to each. */
  datatype Relay = Relay(o: Net, i: Net, ob: Buf, ib: Buf)

  /** What is known of an inner side also after it was closed: its ends and its secret key. */
  datatype Kept = Kept(e: Ends, sk: Key)

  /** Two inner sides, and how many frames of each the other one has finished. */
  datatype Seam = Seam(near: Kept, far: Kept, farDone: nat, nearDone: nat)

  ghost function Turned(j: Seam): (r: Seam) {
    Seam(j.far, j.near, j.nearDone, j.farDone)
  }

  /** What i writes is what z reads, and the other way round. */
  ghost predicate Wired(i: Net, z: Net)
    reads i, z
  {
    && i.encrypted && z.encrypted && i.out == z.inp && i.inp == z.out
    && i in i.mine && i.repr == i.mine + {i.inp, i.out} && z in z.mine && z.repr == z.mine + {z.inp, z.out}
    && i.mine !! z.mine
  }

  /** What the key exchange has come to, on one side. */
  ghost predicate KeyFacts(k: Kept) {
    && k.e.Ends? && |k.e.r.peerPk| == 32 && k.e.s.key == k.e.r.key && (k.e.s.ready <==> k.e.r.keyRecvd == 32)
    && (k.e.s.keySent > 0 ==> k.e.s.pk == PublicKey(k.sk))
    && (k.e.s.ready ==> k.e.s.keySent == 32 && k.e.s.key == SharedKey(k.e.r.peerPk, k.sk))
  }

  /** These are the ends of i, or those that it had when it was closed. */
  ghost predicate KeptBy(i: Net, k: Kept)
    reads i, i.mine, i.out`sent, i.inp`taken
  {
    && KeyFacts(k) && k.e.frames == i.frames && k.e.s.sent == i.out.sent
    && SenderOk(k.e.s, Flow(i.frames, 0, i.put, []))
    && if i.nn == null then i.sockFd < 0 else i.sockFd >= 0 && EndsOf(i) == k.e
  }

  /** The far side has finished `done` of the frames, and is in step with the rest. */
  ghost predicate InStep(k: Kept, l: Kept, done: nat, put: seq<u8>, got: seq<u8>) {
    k.e.Ends? && l.e.Ends? && ReceiverOk(l.e.r, k.e.s, Flow(k.e.frames, done, put, got))
  }

  /** Both directions are in step, given what each side has put and got. */
  ghost predicate BothInStep(j: Seam, put: seq<u8>, got: seq<u8>, farPut: seq<u8>, farGot: seq<u8>) {
    InStep(j.near, j.far, j.farDone, put, farGot) && InStep(j.far, j.near, j.nearDone, farPut, got)
  }

  ghost predicate Joined(i: Net, z: Net, j: Seam)
    reads i, i.repr, z, z.repr
  {
    && Wired(i, z) && i.Valid() && z.Valid() && KeptBy(i, j.near) && KeptBy(z, j.far)
    && BothInStep(j, i.put, i.got, z.put, z.got)
  }

  // ---------- what a side's validity says, on values ----------

  /** The ends of an open side are as the invariant wants them. */
  lemma KeepOpen(i: Net) returns (k: Kept)
    requires i.Own() && i.nn != null && i.sockFd >= 0
    ensures KeptBy(i, k) && k.e == EndsOf(i)
    ensures k.e.s == i.nn.SenderView() && k.e.r == i.nn.ReceiverView()
    ensures k.e.coming == i.coming && k.e.unsaid == i.unsaid && k.e.says == i.says
    ensures (k.e.s.ready <==> i.Ready()) && (k.e.s.remaining == [] <==> !i.InFlight())
  {
    hide SenderOk, PublicKey, SharedKey;
    k := Kept(EndsOf(i), i.nn.sk[..]);
  }

  lemma OpenEnds(i: Net, k: Kept)
    requires i.Own() && i.nn != null && KeptBy(i, k)
    ensures k.e == EndsOf(i) && k.e.s == i.nn.SenderView() && k.e.r == i.nn.ReceiverView()
    ensures k.e.coming == i.coming && k.e.unsaid == i.unsaid && k.e.says == i.says
    ensures (k.e.s.ready <==> i.Ready()) && (k.e.s.remaining == [] <==> !i.InFlight())
    ensures k.e.r.taken == i.inp.taken
  {
    hide SenderOk, PublicKey, SharedKey;
  }

  lemma KeptFacts(i: Net, k: Kept)
    requires KeptBy(i, k)
    ensures k.e.Ends? && k.e.frames == i.frames && k.e.s.sent == i.out.sent && KeyFacts(k)
    ensures i.nn == null <==> i.sockFd < 0
  {
    hide SenderOk, PublicKey, SharedKey, EndsOf, KeyFacts;
    KeptEnds(k);
  }

  lemma KeptEnds(k: Kept)
    requires KeyFacts(k)
    ensures k.e.Ends?
  {
    hide PublicKey, SharedKey;
  }

  lemma AnyReader(s: Sender, fl: Flow, done: nat, delivered: seq<u8>)
    requires SenderOk(s, fl)
    ensures SenderOk(s, fl.(done := done, delivered := delivered))
  {
    hide EncodeAll, Texts;
  }

  lemma AsSender(i: Net, k: Kept, done: nat, delivered: seq<u8>)
    requires KeptBy(i, k)
    ensures k.e.Ends? && SenderOk(k.e.s, Flow(k.e.frames, done, i.put, delivered))
  {
    hide SenderOk, PublicKey, SharedKey, EndsOf;
    AnyReader(k.e.s, Flow(i.frames, 0, i.put, []), done, delivered);
  }

  lemma AsReader(i: Net)
    requires i.Valid() && i.nn != null && i.Ready()
    ensures var e := EndsOf(i);
      && e.Ends? && e.r.keyRecvd == 32 && e.r.taken <= |i.inp.sent|
      && Follows(e.r.state, e.coming, e.r.key, e.r.big, i.inp.sent[e.r.taken..], e.unsaid)
      && i.got + Owed(e.r.state, e.coming) == e.says
  {
    hide SenderOk, PublicKey, SharedKey, Follows, Owed;
  }

  /** Only the wires are shared, so validity is what is one's own and the state of the wires. */
  lemma StillValid(z: Net)
    requires z.Own() && z.out.Valid() && z.Told()
    ensures z.Valid()
  {
  }

  /** A closed side is only told by what it has obtained. */
  lemma ClosedTold(z: Net)
    requires z.Own() && z.nn == null && z.encrypted && z.inp.Valid() && z.got <= z.says
    ensures z.Told()
  {
  }

  lemma ObtainedOfSaid(z: Net)
    requires z.Valid() && z.encrypted
    ensures z.got <= z.says
  {
  }

  // ---------- the peer is the sender ----------

  /** z takes what i has framed and z has not yet finished for what is to come. */
  method Hear(z: Net, ghost k: Kept, ghost l: Kept, ghost done: nat, ghost put: seq<u8>) returns (ghost l': Kept)
    requires z.Own() && z.inp.Valid() && z.out.Valid() && z.encrypted && (z.nn == null ==> z.got <= z.says)
    requires KeptBy(z, l) && k.e.Ends? && z.inp.sent == k.e.s.sent && InStep(k, l, done, put, z.got)
    modifies z`coming, z`unsaid, z`says
    ensures z.Valid() && KeptBy(z, l') && l'.e.Ends? && l.e.Ends?
    ensures l'.e == l.e.(coming := l'.e.coming, unsaid := l'.e.unsaid, says := l'.e.says)
    ensures z.nn != null ==>
      && done <= |k.e.frames| && l'.e.coming == k.e.frames[done..] && l'.e.unsaid == k.e.s.remaining
      && l'.e.says == Texts(k.e.frames)
  {
    hide SenderOk, Follows, Owed, PublicKey, SharedKey, Texts, ReceiverOk, Idle, EndsOf, Net.Valid, Net.Own, Net.Told;
    hide KeyFacts;
    KeptFacts(z, l);
    l' := l;
    if z.nn != null {
      OpenEnds(z, l);
      ToCome(k.e.s, l.e.r, Flow(k.e.frames, done, put, z.got));
      TakeNote(z, k.e.frames[done..], k.e.s.remaining, Texts(k.e.frames));
      Parts(z);
      l' := KeepOpen(z);
    } else {
      ClosedTold(z);
      StillValid(z);
    }
  }

  method TakeNote(i: Net, ghost coming: seq<Frame>, ghost unsaid: seq<u8>, ghost says: seq<u8>)
    requires i.Own() && i.nn != null && i.inp.Valid() && i.out.Valid() && i.encrypted && i.got <= says
    requires i.nn.keyBytesRecvd == 32 ==>
      && Follows(i.nn.RecvView(), coming, i.nn.symKey[..], i.nn.bigEndian, i.inp.Pending(), unsaid)
      && i.got + Owed(i.nn.RecvView(), coming) == says
    modifies i`coming, i`unsaid, i`says
    ensures i.Valid() && i.coming == coming && i.unsaid == unsaid && i.says == says
    ensures EndsOf(i).Ends? && old(EndsOf(i)).Ends?
    ensures EndsOf(i) == old(EndsOf(i)).(coming := coming, unsaid := unsaid, says := says)
  {
    hide SenderOk, Follows, Owed, PublicKey, SharedKey, Endpoint.KeyShape, Idle;
    i.coming, i.unsaid, i.says := coming, unsaid, says;
  }

  lemma ToCome(s: Sender, r: Receiver, fl: Flow)
    requires ReceiverOk(r, s, fl)
    ensures fl.done <= |fl.frames| && r.taken <= |s.sent| && r.keyRecvd <= 32
    ensures fl.delivered <= Texts(fl.frames)
    ensures r.keyRecvd == 32 ==>
      && Follows(r.state, fl.frames[fl.done..], r.key, r.big, s.sent[r.taken..], s.remaining)
      && fl.delivered + Owed(r.state, fl.frames[fl.done..]) == Texts(fl.frames)
    ensures r.keyRecvd < 32 ==> fl.delivered == [] && Idle(r.state)
  {
    hide Follows, Owed, Texts;
  }

  // ---------- both directions, on values ----------

  /** The frame that has not all left the side. */
  ghost predicate Flying(k: Kept) {
    k.e.Ends? && k.e.s.remaining != []
  }

  /** Only what is to come was written down. */
  lemma Noted(j: Seam, j': Seam, put: seq<u8>, got: seq<u8>, farPut: seq<u8>, farGot: seq<u8>)
    requires BothInStep(j, put, got, farPut, farGot)
    requires j'.farDone == j.farDone && j'.nearDone == j.nearDone && j'.near.e.Ends? && j'.far.e.Ends?
    requires j.near.e.Ends? && j'.near.e.s == j.near.e.s && j'.near.e.r == j.near.e.r
    requires j.far.e.Ends? && j'.far.e.s == j.far.e.s && j'.far.e.r == j.far.e.r
    requires j'.near.e.frames == j.near.e.frames && j'.far.e.frames == j.far.e.frames
    ensures BothInStep(j', put, got, farPut, farGot)
  {
    hide ReceiverOk;
  }

  lemma SentOn(j: Seam, k: Kept, put0: seq<u8>, put: seq<u8>, got: seq<u8>, farPut: seq<u8>, farGot: seq<u8>)
    requires BothInStep(j, put0, got, farPut, farGot) && j.near.e.Ends? && k.e.Ends? && SendsOn(j.near.e, k.e)
    requires SenderOk(j.near.e.s, Flow(j.near.e.frames, j.farDone, put0, farGot))
    requires SenderOk(k.e.s, Flow(k.e.frames, j.farDone, put, farGot))
    ensures BothInStep(j.(near := k), put, got, farPut, farGot)
  {
    hide SenderOk, ReceiverOk;
    GrewKeeps(j.near.e.s, k.e.s, j.far.e.r, Flow(j.near.e.frames, j.farDone, put0, farGot),
              Flow(k.e.frames, j.farDone, put, farGot));
  }

  /** Reading on the near side; `now` is what it has become since it took note of what was to come. */
  lemma ReadFrom(
      j: Seam, k: Kept, now: Kept, put: seq<u8>, got0: seq<u8>, got: seq<u8>, farPut: seq<u8>, farGot: seq<u8>)
    returns (j': Seam)
    requires BothInStep(j, put, got0, farPut, farGot) && j.far.e.Ends? && j.near.e.Ends? && k.e.Ends? && now.e.Ends?
    requires k.e == j.near.e.(coming := k.e.coming, unsaid := k.e.unsaid, says := k.e.says)
    requires j.nearDone <= |j.far.e.frames| && k.e.coming == j.far.e.frames[j.nearDone..]
    requires k.e.unsaid == j.far.e.s.remaining && k.e.says == Texts(j.far.e.frames)
    requires ReadsOn(k.e, now.e) && k.e.r.keyRecvd == 32 && got0 <= got && now.e.r.taken <= |j.far.e.s.sent|
    requires Follows(now.e.r.state, now.e.coming, now.e.r.key, now.e.r.big,
                     j.far.e.s.sent[now.e.r.taken..], now.e.unsaid)
    requires got + Owed(now.e.r.state, now.e.coming) == now.e.says
    requires SenderOk(j.far.e.s, Flow(j.far.e.frames, j.nearDone, farPut, got0))
    ensures j' == j.(near := now, nearDone := j'.nearDone) && BothInStep(j', put, got, farPut, farGot)
  {
    hide SenderOk, ReceiverOk, Follows, Owed, Texts;
    HeardKeeps(j.far.e.s, k.e.r, now.e.r, Flow(j.far.e.frames, j.nearDone, farPut, got0), now.e.coming, got);
    j' := j.(near := now, nearDone := |j.far.e.frames| - |now.e.coming|);
  }

  /** If each holds the other's public key, they hold the same secret. */
  lemma SameKey(k: Kept, l: Kept)
    requires KeyFacts(k) && KeyFacts(l) && SecretsCommute()
    ensures k.e.Ends? && l.e.Ends? && Link.Agreed(k.e.s, k.e.r, l.e.s, l.e.r)
  {
    hide PublicKey, SharedKey, SecretsCommute;
    KeysAgree(k.sk, l.sk);
  }

  lemma AgreedOn(j: Seam, k: Kept, put: seq<u8>, got: seq<u8>, farPut: seq<u8>, farGot: seq<u8>)
    requires BothInStep(j, put, got, farPut, farGot) && KeyFacts(k) && KeyFacts(j.far) && SecretsCommute()
    requires j.near.e.Ends? && k.e.Ends? && j.far.e.Ends? && k.e.frames == j.near.e.frames
    requires KeySendStep(j.near.e.s, k.e.s) && KeyRecvStep(j.near.e.r, k.e.r, j.far.e.s.sent)
    requires SenderOk(j.near.e.s, Flow(j.near.e.frames, j.farDone, put, farGot))
    requires SenderOk(j.far.e.s, Flow(j.far.e.frames, j.nearDone, farPut, got))
    ensures BothInStep(j.(near := k), put, got, farPut, farGot)
  {
    hide SenderOk, ReceiverOk, SecretsCommute, PublicKey, SharedKey, KeySendStep, KeyRecvStep, Link.Agreed;
    SameKey(k, j.far);
    Link.KeyStep(j.near.e.s, k.e.s, j.near.e.r, k.e.r, j.far.e.s, j.far.e.r,
                 Flow(j.near.e.frames, j.farDone, put, farGot), Flow(j.far.e.frames, j.nearDone, farPut, got));
  }

  // ---------- the steps on the inner sides ----------

  /** An inner side as the rest of its proxy sees it; `flying` is whether a frame has not all left it. */
  datatype Inner = Inner(repr: set<object>, got: seq<u8>, put: seq<u8>, frames: seq<Frame>, flying: bool)

  ghost function Seen(i: Net, k: Kept): (r: Inner)
    reads i
  {
    Inner(i.repr, i.got, i.put, i.frames, Flying(k))
  }

  /** `buf_send` on an open inner side, before the far side has taken note. */
  method SendFrom(i: Net, ib: Buf, z: Net, ghost j: Seam) returns (err: int, ghost k: Kept)
    requires Joined(i, z, j) && i.nn != null && i.Ready()
    requires ib.Valid() && ib.size > 0 && Retries(i, ib) && Outside(i, ib) && Outside(z, ib)
    modifies i.mine, i.out`sent, i.out`sends, ib
    ensures Wired(i, z) && i.repr == old(i.repr) && i.mine == old(i.mine) && i.nn != null
    ensures i.Valid() && z.Own() && z.inp.Valid() && z.out.Valid() && (z.nn == null ==> z.got <= z.says)
    ensures KeptBy(i, k) && KeptBy(z, j.far) && BothInStep(j.(near := k), i.put, i.got, z.put, z.got)
    ensures i.got == old(i.got) && ib.Valid() && Retries(i, ib) && (i.InFlight() <==> Flying(k))
    ensures i.put + ib.Unsent() == old(i.put + ib.Unsent())
  {
    hide Net.Valid, Net.Own, Net.Told, EndsOf, Carries, BothInStep, SenderOk, KeptBy, KeyFacts, Net.InFlight;
    Parts(i);
    Parts(z);
    OpenEnds(i, j.near);
    KeptFacts(i, j.near);
    KeptFacts(z, j.far);
    ObtainedOfSaid(z);
    ghost var p0 := i.put;
    AsSender(i, j.near, j.farDone, z.got);
    err := BufSend(i, ib);
    Parts(i);
    k := KeepOpen(i);
    AsSender(i, k, j.farDone, z.got);
    SentOn(j, k, p0, i.put, i.got, z.put, z.got);
    assert KeptBy(z, j.far) && z.Own();
  }

  /** `buf_send` on an open inner side. */
  method SendInner(i: Net, ib: Buf, z: Net, ghost j: Seam) returns (err: int, ghost j': Seam)
    requires Joined(i, z, j) && i.nn != null && i.Ready()
    requires ib.Valid() && ib.size > 0 && Retries(i, ib) && Outside(i, ib) && Outside(z, ib)
    modifies i.mine, i.out`sent, i.out`sends, ib, z`coming, z`unsaid, z`says
    ensures Joined(i, z, j') && i.repr == old(i.repr) && i.mine == old(i.mine)
    ensures i.got == old(i.got) && ib.Valid() && (Flying(j'.near) ==> Carries(i.frames, ib.Unsent()))
    ensures i.put + ib.Unsent() == old(i.put + ib.Unsent())
    ensures Seen(z, j'.far) == old(Seen(z, j.far)) && z.mine == old(z.mine)
  {
    hide Net.Valid, Net.Own, Net.Told, EndsOf, Carries, BothInStep, KeptBy, Net.InFlight;
    ghost var k;
    err, k := SendFrom(i, ib, z, j);
    Parts(i);
    j' := Told(i, z, j.(near := k));
    assert i.Valid();
  }

  /** z takes note of what i has to say. */
  method Told(i: Net, z: Net, ghost j: Seam) returns (ghost j': Seam)
    requires Wired(i, z) && i.Own() && z.Own() && z.inp.Valid() && z.out.Valid() && (z.nn == null ==> z.got <= z.says)
    requires KeptBy(i, j.near) && KeptBy(z, j.far) && BothInStep(j, i.put, i.got, z.put, z.got)
    modifies z`coming, z`unsaid, z`says
    ensures z.Valid() && KeptBy(i, j'.near) && KeptBy(z, j'.far) && BothInStep(j', i.put, i.got, z.put, z.got)
    ensures j.far.e.Ends? && j'.far.e.Ends? && j' == j.(far := j'.far)
    ensures j'.far.e.s == j.far.e.s && j'.far.e.r == j.far.e.r
    ensures j'.far.e == j.far.e.(coming := j'.far.e.coming, unsaid := j'.far.e.unsaid, says := j'.far.e.says)
    ensures z.nn != null ==>
      && j.near.e.Ends? && j.farDone <= |j.near.e.frames| && j'.far.e.coming == j.near.e.frames[j.farDone..]
      && j'.far.e.unsaid == j.near.e.s.remaining && j'.far.e.says == Texts(j.near.e.frames)
  {
    hide Net.Valid, Net.Own, EndsOf, SenderOk, KeptBy, KeyFacts, ReceiverOk;
    KeptFacts(i, j.near);
    KeptFacts(z, j.far);
    ghost var l := Hear(z, j.near, j.far, j.farDone, i.put);
    assert KeptBy(i, j.near);
    j' := j.(far := l);
    hide InStep;
    Noted(j, j', i.put, i.got, z.put, z.got);
  }

  /** `buf_recv` from an open inner side. */
  method RecvInner(i: Net, ob: Buf, z: Net, ghost j: Seam) returns (err: int, ghost j': Seam)
    requires Joined(i, z, j) && i.nn != null && i.Ready() && ob.Valid() && ob.size == 0
    requires Outside(i, ob) && Outside(z, ob)
    modifies i.mine, i.inp`taken, i.inp`recvs, ob, ob.data
    ensures Joined(i, z, j') && i.repr == old(i.repr) && i.mine == old(i.mine)
    ensures ob.Valid() && Seen(i, j'.near) == old(Seen(i, j.near)).(got := old(i.got) + ob.Unsent())
    ensures i.got == old(i.got) + ob.Unsent() && Seen(z, j'.far) == old(Seen(z, j.far)) && z.mine == old(z.mine)
  {
    hide Net.Valid, Net.Own, Net.Told, EndsOf, SenderOk, KeptBy, KeyFacts, ReceiverOk, Follows, Owed, BothInStep;
    Parts(i);
    Parts(z);
    KeptFacts(z, j.far);
    Turning(j, i.put, i.got, z.put, z.got);
    ghost var g := i.got;
    ghost var j1 := Told(z, i, Turned(j));
    assert z.Valid() && KeptBy(z, j.far);
    AsSender(z, j.far, j.nearDone, i.got);
    ghost var now;
    err, now := ReadOn(i, ob, z, j1.far);
    j' := ReadFrom(j, j1.far, now, i.put, g, i.got, z.put, z.got);
  }

  lemma Turning(j: Seam, put: seq<u8>, got: seq<u8>, farPut: seq<u8>, farGot: seq<u8>)
    requires BothInStep(j, put, got, farPut, farGot)
    ensures BothInStep(Turned(j), farPut, farGot, put, got)
  {
    hide InStep;
  }

  /** Reading at one end of the tunnel does not touch the other. */
  method ReadOn(i: Net, ob: Buf, z: Net, ghost k: Kept) returns (err: int, ghost now: Kept)
    requires Wired(i, z) && i.Valid() && z.Valid() && i.nn != null && i.Ready() && ob.Valid() && ob.size == 0
    requires Outside(i, ob) && Outside(z, ob) && KeptBy(i, k)
    modifies i.mine, i.inp`taken, i.inp`recvs, ob, ob.data
    ensures Wired(i, z) && i.Valid() && z.Valid() && i.repr == old(i.repr) && i.mine == old(i.mine)
    ensures KeptBy(i, now) && k.e.Ends? && now.e.Ends? && ReadsOn(k.e, now.e) && k.e.r.keyRecvd == 32
    ensures now.e.r.taken <= |i.inp.sent|
    ensures Follows(now.e.r.state, now.e.coming, now.e.r.key, now.e.r.big, i.inp.sent[now.e.r.taken..], now.e.unsaid)
    ensures i.got + Owed(now.e.r.state, now.e.coming) == now.e.says
    ensures i.put == old(i.put) && i.frames == old(i.frames)
    ensures ob.Valid() && i.got == old(i.got) + ob.Unsent()
  {
    hide Net.Valid, Net.Own, Net.Told, EndsOf, Follows, Owed, KeptBy, KeyFacts;
    Parts(i);
    Parts(z);
    KeptFacts(i, k);
    OpenEnds(i, k);
    AsReader(i);
    err := BufRecv(i, ob);
    Parts(i);
    now := KeepOpen(i);
    assert z.Own() && z.Told();
    StillValid(z);
    AsReader(i);
  }

  /** One call of `netnacl_wrap` on an open inner side. */
  method AgreeInner(i: Net, z: Net, ghost j: Seam) returns (ret: int, ghost j': Seam)
    requires Joined(i, z, j) && i.nn != null && !i.Ready() && SecretsCommute()
    modifies i.mine, i.out`sent, i.out`sends, i.inp`taken, i.inp`recvs, z`coming, z`unsaid, z`says
    ensures Joined(i, z, j') && i.repr == old(i.repr) && i.mine == old(i.mine)
    ensures Seen(i, j'.near) == old(Seen(i, j.near))
    ensures Seen(z, j'.far) == old(Seen(z, j.far)) && z.mine == old(z.mine)
  {
    hide Net.Valid, Net.Own, Net.Told, EndsOf, SenderOk, KeptBy, KeyFacts, BothInStep, SecretsCommute;
    ghost var k;
    ret, k := AgreeFrom(i, z, j);
    hide Wired;
    j' := BothTold(i, z, j.(near := k));
  }

  /** Both sides take note of what the other has to say. */
  method BothTold(i: Net, z: Net, ghost j: Seam) returns (ghost j': Seam)
    requires Wired(i, z) && i.Own() && z.Own() && i.inp.Valid() && i.out.Valid()
    requires (i.nn == null ==> i.got <= i.says) && (z.nn == null ==> z.got <= z.says)
    requires KeptBy(i, j.near) && KeptBy(z, j.far) && BothInStep(j, i.put, i.got, z.put, z.got)
    modifies i`coming, i`unsaid, i`says, z`coming, z`unsaid, z`says
    ensures Joined(i, z, j') && Flying(j'.near) == Flying(j.near) && Flying(j'.far) == Flying(j.far)
  {
    hide Net.Valid, Net.Own, Net.Told, EndsOf, SenderOk, KeptBy, KeyFacts, BothInStep;
    ghost var j1 := Told(i, z, j);
    Parts(z);
    Turning(j1, i.put, i.got, z.put, z.got);
    ghost var j2 := Told(z, i, Turned(j1));
    assert z.Valid() && KeptBy(z, j1.far);
    Turning(j2, z.put, z.got, i.put, i.got);
    j' := Turned(j2);
  }

  /** `netnacl_wrap` on an open inner side, before either side has taken note. */
  method AgreeFrom(i: Net, z: Net, ghost j: Seam) returns (ret: int, ghost k: Kept)
    requires Joined(i, z, j) && i.nn != null && !i.Ready() && SecretsCommute()
    modifies i.mine, i.out`sent, i.out`sends, i.inp`taken, i.inp`recvs
    ensures Wired(i, z) && i.repr == old(i.repr) && i.mine == old(i.mine) && i.nn != null
    ensures i.Own() && i.inp.Valid() && i.out.Valid() && z.Own() && (z.nn == null ==> z.got <= z.says)
    ensures KeptBy(i, k) && KeptBy(z, j.far) && BothInStep(j.(near := k), i.put, i.got, z.put, z.got)
    ensures i.got == old(i.got) && i.put == old(i.put) && i.frames == old(i.frames) && Flying(k) == Flying(j.near)
  {
    hide Net.Valid, Net.Own, Net.Told, EndsOf, SenderOk, KeptBy, KeyFacts, BothInStep, SecretsCommute;
    hide KeySendStep, KeyRecvStep, PublicKey, SharedKey;
    Parts(i);
    Parts(z);
    OpenEnds(i, j.near);
    KeptFacts(i, j.near);
    KeptFacts(z, j.far);
    ObtainedOfSaid(z);
    AsSender(i, j.near, j.farDone, z.got);
    AsSender(z, j.far, j.nearDone, i.got);
    ret := i.Agree();
    k := KeepOpen(i);
    KeptFacts(i, k);
    AgreedOn(j, k, i.put, i.got, z.put, z.got);
    assert KeptBy(z, j.far) && z.Own();
  }

  /** An inner side is closed: what it has sent is on the wire, and that is all there will be. */
  method CloseInner(i: Net, z: Net, ghost j: Seam)
    requires Joined(i, z, j)
    modifies i
    ensures Joined(i, z, j) && i.mine == old(i.mine) && Seen(i, j.near) == old(Seen(i, j.near))
    ensures Seen(z, j.far) == old(Seen(z, j.far)) && z.mine == old(z.mine)
  {
    hide Net.Valid, SenderOk, KeyFacts, BothInStep;
    i.Shut();
    assert z.Valid();
  }

  // ---------- one proxy ----------

  /** The outer side and the two buffers have memory of their own. */
  ghost predicate Beside(o: Net, ob: Buf, ib: Buf, repr: set<object>)
    reads o, o.repr
  {
    && o.Valid() && !o.encrypted && o in o.repr && o.mine <= o.repr && o.repr !! repr
    && ob != ib && ob.data != ib.data && Outside(o, ob) && Outside(o, ib)
    && ob !in repr && ob.data !in repr && ib !in repr && ib.data !in repr
  }

  /** The outer side of a proxy and its two buffers fit to the inner side. */
  ghost predicate Around(o: Net, ob: Buf, ib: Buf, n: Inner)
    reads o, o.repr, ob, ib, ob.data, ib.data
  {
    && Beside(o, ob, ib, n.repr) && ob.Valid() && ib.Valid()
    && Balanced(o.got, o.put, ob.Unsent(), ib.Unsent(), n)
  }

  /** What came from outside has gone in or waits for it, what came from inside has gone out or waits for it. */
  ghost predicate Balanced(got: seq<u8>, put: seq<u8>, toOuter: seq<u8>, toInner: seq<u8>, n: Inner) {
    got == n.put + toInner && n.got == put + toOuter && (n.flying ==> Carries(n.frames, toInner))
  }

  lemma BroughtIn(got: seq<u8>, put: seq<u8>, toInner: seq<u8>, n: Inner, n': Inner, data: seq<u8>)
    requires Balanced(got, put, [], toInner, n)
    requires n' == n.(repr := n'.repr, got := n'.got) && n'.got == n.got + data
    ensures Balanced(got, put, data, toInner, n')
  {
  }

  lemma TakenIn(got: seq<u8>, put: seq<u8>, toOuter: seq<u8>, rest: seq<u8>, rest': seq<u8>, n: Inner, n': Inner)
    requires Balanced(got, put, toOuter, rest, n) && n'.got == n.got && n'.put + rest' == n.put + rest
    requires n'.flying ==> Carries(n'.frames, rest')
    ensures Balanced(got, put, toOuter, rest', n')
  {
  }

  ghost predicate Station(a: Relay, k: Kept)
    reads a.o, a.o.repr, a.i, a.ob, a.ib, a.ob.data, a.ib.data
  {
    Around(a.o, a.ob, a.ib, Seen(a.i, k))
  }

  /** A proxy's invariant, in this form, is the one that its callbacks keep. */
  lemma StationIsSound(a: Relay, k: Kept)
    requires a.i.Valid() && KeptBy(a.i, k) && Station(a, k)
    ensures Sound(a.o, a.i, a.ob, a.ib) && Retries(a.o, a.ob) && Retries(a.i, a.ib)
  {
    hide Net.Valid, Carries, KeptBy;
    PlainHasNoContext(a.o);
    Parts(a.i);
    if a.i.nn != null {
      OpenEnds(a.i, k);
    }
  }

  /** The outer side is read into the buffer for the inner side. */
  method FromOuter(o: Net, ob: Buf, ib: Buf, ghost n: Inner)
    requires Around(o, ob, ib, n) && ib.size == 0
    modifies o.mine, o.inp`taken, o.inp`recvs, ib, ib.data
    ensures Around(o, ob, ib, n) && o.repr == old(o.repr) && o.mine == old(o.mine)
  {
    hide Net.Valid;
    Parts(o);
    assert !n.flying && ib.Unsent() == [];
    hide Carries;
    var err := BufRecv(o, ib);
    assert ob.Unsent() == old(ob.Unsent());
  }

  /** The buffer for the outer side is sent. */
  method ToOuter(o: Net, ob: Buf, ib: Buf, ghost n: Inner)
    requires Around(o, ob, ib, n) && ob.size > 0
    modifies o.mine, o.out`sent, o.out`sends, ob
    ensures Around(o, ob, ib, n) && o.repr == old(o.repr) && o.mine == old(o.mine)
  {
    hide Net.Valid, Carries;
    Parts(o);
    PlainHasNoContext(o);
    var err := BufSend(o, ob);
    assert ib.Unsent() == old(ib.Unsent());
  }

  /** The outer side is closed. */
  method EndOuter(o: Net, ob: Buf, ib: Buf, ghost n: Inner)
    requires Around(o, ob, ib, n)
    modifies o
    ensures Around(o, ob, ib, n) && o.repr == old(o.repr) && o.mine == old(o.mine)
  {
    hide Net.Valid, Carries;
    o.Shut();
  }

  // ---------- two proxies ----------

  /** The memory of a proxy without its inner side. */
  ghost function Outer(a: Relay): (r: set<object>)
    reads a.o
  {
    a.o.repr + {a.ob, a.ob.data, a.ib, a.ib.data}
  }

  ghost predicate Within(a: Relay)
    reads a.o, a.i
  {
    && {a.o, a.o.inp, a.o.out} + a.o.mine <= a.o.repr && a.o.repr !! {a.ob, a.ob.data, a.ib, a.ib.data}
    && {a.i, a.i.inp, a.i.out} + a.i.mine <= a.i.repr
  }

  /** The memory of the two proxies is separate but for the wires between them. */
  ghost predicate Far(a: Relay, b: Relay)
    reads a.o, a.i, b.o, b.i
  {
    && Outer(a) !! Outer(b) && Outer(a) !! a.i.repr + b.i.repr && Outer(b) !! a.i.repr + b.i.repr
    && Within(a) && Within(b)
  }

  ghost predicate Pair(a: Relay, b: Relay, j: Seam)
    reads a.o, a.o.repr, a.i, a.i.repr, a.ob, a.ib, a.ob.data, a.ib.data
    reads b.o, b.o.repr, b.i, b.i.repr, b.ob, b.ib, b.ob.data, b.ib.data
  {
    Station(a, j.near) && Station(b, j.far) && Joined(a.i, b.i, j) && Far(a, b)
  }

  ghost function Places(a: Relay, b: Relay): (r: seq<set<object>>)
    reads a.o, a.i, b.o, b.i
  {
    [a.o.repr, a.i.repr, b.o.repr, b.i.repr, a.o.mine, a.i.mine, b.o.mine, b.i.mine]
  }

  lemma PairSwap(a: Relay, b: Relay, j: Seam)
    requires Pair(a, b, j)
    ensures Pair(b, a, Turned(j))
  {
    hide Station, Net.Valid, BothInStep, KeptBy;
    Turning(j, a.i.put, a.i.got, b.i.put, b.i.got);
  }

  /** What a proxy may do, one call of the layer below at a time. */
  datatype Act = Agree | ReadOuter | WriteInner | ReadInner | WriteOuter | CloseOuter | CloseInner

  method WriteInnerOf(a: Relay, b: Relay, ghost j: Seam) returns (ghost j': Seam)
    requires Pair(a, b, j) && a.i.nn != null && a.i.Ready() && a.ib.size > 0
    modifies a.i.mine, a.i.out`sent, a.i.out`sends, a.ib, b.i`coming, b.i`unsaid, b.i`says
    ensures Pair(a, b, j') && Places(a, b) == old(Places(a, b))
  {
    hide Net.Valid, Joined, Carries, Net.Ready, Flying, Beside, Balanced;
    MayRetry(a, b, j);
    TwoBuffers(a, j.near);
    ghost var n, got, put, rest, out := Seen(a.i, j.near), a.o.got, a.o.put, a.ib.Unsent(), a.ob.Unsent();
    var err;
    err, j' := SendInner(a.i, a.ib, b.i, j);
    assert a.o.got == got && a.o.put == put && a.ob.Unsent() == out;
    TakenIn(got, put, out, rest, a.ib.Unsent(), n, Seen(a.i, j'.near));
    assert Station(a, j'.near) && Station(b, j'.far);
  }

  lemma MayRetry(a: Relay, b: Relay, j: Seam)
    requires Joined(a.i, b.i, j) && Station(a, j.near)
    ensures Retries(a.i, a.ib)
  {
    hide Station, Retries, Net.Valid, KeptBy, BothInStep;
    StationIsSound(a, j.near);
  }

  lemma TwoBuffers(a: Relay, k: Kept)
    requires Station(a, k)
    ensures a.ob != a.ib && a.ob.data != a.ib.data
  {
    hide Net.Valid, Balanced;
  }

  method ReadInnerOf(a: Relay, b: Relay, ghost j: Seam) returns (ghost j': Seam)
    requires Pair(a, b, j) && a.i.nn != null && a.i.Ready() && a.ob.size == 0
    modifies a.i.mine, a.i.inp`taken, a.i.inp`recvs, a.ob, a.ob.data
    ensures Pair(a, b, j') && Places(a, b) == old(Places(a, b))
  {
    hide Net.Valid, Joined, Carries, Net.Ready, Flying, Beside, Balanced;
    ghost var n, got, put, rest := Seen(a.i, j.near), a.o.got, a.o.put, a.ib.Unsent();
    TwoBuffers(a, j.near);
    assert a.ob.Unsent() == [];
    var err;
    err, j' := RecvInner(a.i, a.ob, b.i, j);
    assert a.o.got == got && a.o.put == put && a.ib.Unsent() == rest;
    BroughtIn(got, put, rest, n, Seen(a.i, j'.near), a.ob.Unsent());
    assert Station(a, j'.near) && Station(b, j'.far);
  }

  method AgreeOf(a: Relay, b: Relay, ghost j: Seam) returns (ghost j': Seam)
    requires Pair(a, b, j) && a.i.nn != null && !a.i.Ready() && SecretsCommute()
    modifies a.i.mine, a.i.out`sent, a.i.out`sends, a.i.inp`taken, a.i.inp`recvs, b.i`coming, b.i`unsaid, b.i`says
    ensures Pair(a, b, j') && Places(a, b) == old(Places(a, b))
  {
    hide Net.Valid, Joined, Carries, Net.Ready, Flying, Around, SecretsCommute;
    var ret;
    ret, j' := AgreeInner(a.i, b.i, j);
    assert Station(a, j'.near) && Station(b, j'.far);
  }

  method CloseInnerOf(a: Relay, b: Relay, ghost j: Seam)
    requires Pair(a, b, j)
    modifies a.i
    ensures Pair(a, b, j) && Places(a, b) == old(Places(a, b))
  {
    hide Net.Valid, Joined, Around, Flying;
    CloseInner(a.i, b.i, j);
    assert Station(a, j.near) && Station(b, j.far);
  }

  method ReadOuterOf(a: Relay, b: Relay, ghost j: Seam)
    requires Pair(a, b, j) && a.ib.size == 0
    modifies a.o.mine, a.o.inp`taken, a.o.inp`recvs, a.ib, a.ib.data
    ensures Pair(a, b, j) && Places(a, b) == old(Places(a, b))
  {
    hide Net.Valid, BothInStep, KeptBy, Around, Flying;
    FromOuter(a.o, a.ob, a.ib, Seen(a.i, j.near));
  }

  method WriteOuterOf(a: Relay, b: Relay, ghost j: Seam)
    requires Pair(a, b, j) && a.ob.size > 0
    modifies a.o.mine, a.o.out`sent, a.o.out`sends, a.ob
    ensures Pair(a, b, j) && Places(a, b) == old(Places(a, b))
  {
    hide Net.Valid, BothInStep, KeptBy, Around, Flying;
    ToOuter(a.o, a.ob, a.ib, Seen(a.i, j.near));
  }

  method CloseOuterOf(a: Relay, b: Relay, ghost j: Seam)
    requires Pair(a, b, j)
    modifies a.o
    ensures Pair(a, b, j) && Places(a, b) == old(Places(a, b))
  {
    hide Net.Valid, BothInStep, KeptBy, Around, Flying;
    EndOuter(a.o, a.ob, a.ib, Seen(a.i, j.near));
  }

  /** One act of the first proxy; what cannot be done now is left alone. */
  method Turn(act: Act, a: Relay, b: Relay, ghost j: Seam) returns (ghost j': Seam)
    requires Pair(a, b, j) && SecretsCommute()
    modifies a.o.mine, a.o.inp`taken, a.o.inp`recvs, a.o.out`sent, a.o.out`sends
    modifies a.i.mine, a.i.inp`taken, a.i.inp`recvs, a.i.out`sent, a.i.out`sends
    modifies a.ob, a.ib, a.ob.data, a.ib.data, b.i`coming, b.i`unsaid, b.i`says
    ensures Pair(a, b, j') && Places(a, b) == old(Places(a, b))
  {
    hide Net.Valid, BothInStep, KeptBy, Station, SecretsCommute;
    j' := j;
    if a.i.nn != null {
      ReadyIs(a.i);
    }
    SelfOwned(a, j.near);
    var open := a.i.nn != null;
    var ready := open && a.i.nn.keyBytesRecvd == 32;
    hide Pair, Net.Ready;
    match act {
      case Agree =>
        if open && !ready {
          j' := AgreeOf(a, b, j);
        }
      case ReadOuter =>
        if a.o.sockFd >= 0 && a.ib.size == 0 {
          ReadOuterOf(a, b, j);
        }
      case WriteInner =>
        if ready && a.ib.size > 0 {
          j' := WriteInnerOf(a, b, j);
        }
      case ReadInner =>
        if ready && a.ob.size == 0 {
          j' := ReadInnerOf(a, b, j);
        }
      case WriteOuter =>
        if a.ob.size > 0 {
          WriteOuterOf(a, b, j);
        }
      case CloseOuter =>
        CloseOuterOf(a, b, j);
      case CloseInner =>
        CloseInnerOf(a, b, j);
    }
  }

  lemma SelfOwned(a: Relay, k: Kept)
    requires Station(a, k)
    ensures a.o in a.o.mine
  {
    hide Balanced, SenderOk;
  }

  lemma ReadyIs(i: Net)
    requires i.Valid() && i.encrypted && i.nn != null
    ensures i.Ready() <==> i.nn.keyBytesRecvd == 32
  {
  }

  method EitherTurn(first: bool, act: Act, a: Relay, b: Relay, ghost j: Seam) returns (ghost j': Seam)
    requires Pair(a, b, j) && SecretsCommute()
    modifies a.o.mine, a.o.inp`taken, a.o.inp`recvs, a.o.out`sent, a.o.out`sends
    modifies a.i.mine, a.i.inp`taken, a.i.inp`recvs, a.i.out`sent, a.i.out`sends
    modifies b.o.mine, b.o.inp`taken, b.o.inp`recvs, b.o.out`sent, b.o.out`sends
    modifies b.i.mine, b.i.inp`taken, b.i.inp`recvs, b.i.out`sent, b.i.out`sends
    modifies a.ob, a.ib, a.ob.data, a.ib.data, b.ob, b.ib, b.ob.data, b.ib.data
    ensures Pair(a, b, j') && Places(a, b) == old(Places(a, b))
  {
    hide Net.Valid, BothInStep, KeptBy, Station, SecretsCommute;
    assert a.i in a.i.mine && b.i in b.i.mine;
    hide Pair;
    if first {
      j' := Turn(act, a, b, j);
    } else {
      PairSwap(a, b, j);
      ghost var j1 := Turn(act, b, a, Turned(j));
      PairSwap(b, a, j1);
      j' := Turned(j1);
    }
  }

  /** Every schedule of acts keeps the two proxies and the tunnel between them in order. */
  method RunOn(schedule: seq<(bool, Act)>, a: Relay, b: Relay, ghost j0: Seam) returns (ghost j: Seam)
    requires Pair(a, b, j0) && SecretsCommute()
    modifies a.o.mine, a.o.inp`taken, a.o.inp`recvs, a.o.out`sent, a.o.out`sends
    modifies a.i.mine, a.i.inp`taken, a.i.inp`recvs, a.i.out`sent, a.i.out`sends
    modifies b.o.mine, b.o.inp`taken, b.o.inp`recvs, b.o.out`sent, b.o.out`sends
    modifies b.i.mine, b.i.inp`taken, b.i.inp`recvs, b.i.out`sent, b.i.out`sends
    modifies a.ob, a.ib, a.ob.data, a.ib.data, b.ob, b.ib, b.ob.data, b.ib.data
    ensures Pair(a, b, j)
  {
    hide Pair, SecretsCommute;
    j := j0;
    var k := 0;
    while k < |schedule|
      invariant 0 <= k <= |schedule| && Pair(a, b, j)
      invariant Places(a, b) == old(Places(a, b))
    {
      j := EitherTurn(schedule[k].0, schedule[k].1, a, b, j);
      k := k + 1;
    }
  }

  // ---------- what it says ----------

  /** The text of the frame that has not all left; it is still at the front of the buffer. */
  ghost function InTheAir(k: Kept): (r: seq<u8>) {
    if Flying(k) then LastText(k.e.frames) else []
  }

  /**
    In one direction: what was read from the client is what the server's socket
    was given, then the second proxy's buffer, then what the tunnel still owes,
    then the rest of the first proxy's buffer, whichever sides have been closed.
  */
  lemma BytesInAreBytesOut(a: Relay, b: Relay, j: Seam)
    requires Pair(a, b, j)
    ensures a.o.inp.taken <= |a.o.inp.sent| && b.o.out.sent <= a.o.inp.sent[..a.o.inp.taken]
    ensures j.far.e.Ends? && j.near.e.Ends? && j.farDone <= |j.near.e.frames|
    ensures |InTheAir(j.near)| <= |a.ib.Unsent()|
    ensures a.o.inp.sent[..a.o.inp.taken]
         == b.o.out.sent + b.ob.Unsent() + Owed(j.far.e.r.state, j.near.e.frames[j.farDone..])
            + a.ib.Unsent()[|InTheAir(j.near)|..]
  {
    hide Net.Valid, KeptBy, SenderOk, ReceiverOk, Owed, Far;
    ObtainedIsSaid(a.o);
    ObtainedIsSaid(b.o);
    KeptFacts(a.i, j.near);
    AsSender(a.i, j.near, j.farDone, b.i.got);
    Equation(j.near.e.s, j.far.e.r, Flow(j.near.e.frames, j.farDone, a.i.put, b.i.got),
             a.o.got, b.o.put, b.ob.Unsent(), a.ib.Unsent(), InTheAir(j.near));
  }

  lemma Equation(
      s: Sender, r: Receiver, fl: Flow, got: seq<u8>, put: seq<u8>, farBuf: seq<u8>, buf: seq<u8>, flying: seq<u8>)
    requires SenderOk(s, fl) && ReceiverOk(r, s, fl)
    requires got == fl.accepted + buf && fl.delivered == put + farBuf
    requires flying == if s.remaining == [] then [] else LastText(fl.frames)
    requires flying <= buf
    ensures put <= got && fl.done <= |fl.frames|
    ensures got == put + farBuf + Owed(r.state, fl.frames[fl.done..]) + buf[|flying|..]
  {
    var owed := Owed(r.state, fl.frames[fl.done..]);
    FramesAccount(s, r, fl, flying);
    hide *;
    DeliveredIsPrefix(s, r, fl);
    Regroup(fl.accepted, flying, fl.delivered, owed, got, buf, put, farBuf);
  }

  /** All that was framed is what was accepted and what is flying, and what was delivered and what is owed. */
  lemma FramesAccount(s: Sender, r: Receiver, fl: Flow, flying: seq<u8>)
    requires SenderOk(s, fl) && ReceiverOk(r, s, fl)
    requires flying == if s.remaining == [] then [] else LastText(fl.frames)
    ensures fl.done <= |fl.frames|
    ensures fl.accepted + flying == fl.delivered + Owed(r.state, fl.frames[fl.done..])
  {
    hide Owed, Texts, EncodeAll, Follows;
    if s.remaining != [] {
      LastApart(fl.frames, 0);
      assert fl.frames[0..] == fl.frames && fl.frames[0..|fl.frames| - 1] == fl.frames[..|fl.frames| - 1];
    }
  }

  lemma Regroup(
      accepted: seq<u8>, flying: seq<u8>, delivered: seq<u8>, owed: seq<u8>,
      got: seq<u8>, buf: seq<u8>, put: seq<u8>, farBuf: seq<u8>)
    requires accepted + flying == delivered + owed && flying <= buf && delivered <= accepted
    requires got == accepted + buf && delivered == put + farBuf
    ensures put <= got && got == put + farBuf + owed + buf[|flying|..]
  {
    var rest := buf[|flying|..];
    assert buf == flying + rest;
    Associate(accepted, flying, rest);
    Associate(put + farBuf, owed, rest);
  }


  // ---------- from the start ----------

  /** A plain side whose peer will send the stream. */
  method NewOuter(fd: int, stream: seq<u8>, bigEndian: bool, wordBits: nat) returns (o: Net)
    requires fd >= 0 && wordBits >= 32
    ensures o.Valid() && fresh(o.repr) && {o, o.inp, o.out} + o.mine <= o.repr && !o.encrypted && o.sockFd == fd
    ensures o.inp !in o.mine && o.inp != o.out
    ensures o.got == [] && o.put == [] && o.inp.sent == stream
  {
    var inp := new Wire();
    var out := new Wire();
    inp.sent := stream;
    o := new Net(fd, false, inp, out, bigEndian, wordBits);
  }

  /** An inner side with a context for the key exchange. */
  method NewInner(fd: int, inp: Wire, out: Wire, bigEndian: bool, wordBits: nat) returns (i: Net)
    requires fd >= 0 && wordBits >= 32 && inp != out && inp.Valid() && out.Valid() && inp.taken == 0 && out.sent == []
    ensures i.Valid() && fresh(i.mine) && i in i.mine && i.repr == i.mine + {inp, out}
    ensures inp !in i.mine && out !in i.mine
    ensures i.encrypted && i.nn != null && i.sockFd == fd && i.inp == inp && i.out == out && !i.InFlight()
    ensures i.got == [] && i.put == [] && i.frames == []
    ensures i.nn.keyBytesSent == 0 && i.nn.keyBytesRecvd == 0
  {
    i := new Net(fd, true, inp, out, bigEndian, wordBits);
    i.Create();
  }

  ghost predicate Initial(k: Kept) {
    && k.e.Ends? && k.e.frames == []
    && k.e.s.sent == [] && |k.e.s.pk| == 32 && k.e.s.keySent == 0 && k.e.s.remaining == [] && !k.e.s.ready
    && k.e.r.taken == 0 && k.e.r.keyRecvd == 0 && |k.e.r.peerPk| == 32 && Idle(k.e.r.state)
  }

  /** What an inner side is kept as before anything has moved. */
  lemma StartOf(i: Net) returns (k: Kept)
    requires i.Valid() && i.nn != null && i.sockFd >= 0 && i.encrypted
    requires i.got == [] && i.put == [] && i.frames == [] && i.out.sent == [] && i.inp.taken == 0 && !i.InFlight()
    requires i.nn.keyBytesSent == 0 && i.nn.keyBytesRecvd == 0
    ensures KeptBy(i, k) && !Flying(k) && Initial(k)
  {
    hide SenderOk, PublicKey, SharedKey, KeptBy, KeyFacts;
    k := KeepOpen(i);
  }

  lemma StartsInStep(j: Seam)
    requires j.farDone == 0 && j.nearDone == 0 && Initial(j.near) && Initial(j.far)
    ensures BothInStep(j, [], [], [], [])
  {
    hide SenderOk, ReceiverOk, Idle;
    Link.StartOk(j.near.e.s, j.far.e.r);
    Link.StartOk(j.far.e.s, j.near.e.r);
  }

  /** Two inner sides on a new pair of wires. */
  method Inners(bigA: bool, bitsA: nat, bigB: bool, bitsB: nat) returns (i: Net, z: Net, ghost j: Seam)
    requires bitsA >= 32 && bitsB >= 32
    ensures Joined(i, z, j) && fresh(i.repr) && fresh(z.repr)
    ensures {i, i.inp, i.out} + i.mine <= i.repr && {z, z.inp, z.out} + z.mine <= z.repr
    ensures Seen(i, j.near) == Inner(i.repr, [], [], [], false) && Seen(z, j.far) == Inner(z.repr, [], [], [], false)
  {
    hide Net.Valid, KeptBy, BothInStep, Net.InFlight, Idle;
    var there := new Wire();
    var back := new Wire();
    i := NewInner(3, back, there, bigA, bitsA);
    z := NewInner(3, there, back, bigB, bitsB);
    assert i.Valid() && !i.InFlight();
    ghost var k := StartOf(i);
    ghost var l := StartOf(z);
    j := Seam(k, l, 0, 0);
    StartsInStep(j);
  }

  method NewBuffers() returns (ob: Buf, ib: Buf)
    ensures fresh({ob, ob.data, ib, ib.data}) && ob != ib && ob.data != ib.data
    ensures ob.Valid() && ib.Valid() && ob.size == 0 && ib.size == 0
  {
    ob := new Buf();
    ib := new Buf();
  }

  /** A plain side on which nothing has moved. */
  ghost predicate Untried(o: Net)
    reads o, o.repr
  {
    && o.Valid() && !o.encrypted && o.got == [] && o.put == [] && {o, o.inp, o.out} + o.mine <= o.repr
    && o.inp !in o.mine && o.inp != o.out
  }

  lemma UntriedFacts(o: Net)
    requires Untried(o)
    ensures {o, o.inp, o.out} + o.mine <= o.repr && o.inp !in o.mine && o.inp != o.out
  {
    hide Net.Valid;
  }

  lemma NewStation(o: Net, ob: Buf, ib: Buf, repr: set<object>)
    requires Untried(o) && o.repr !! repr && {ob, ob.data, ib, ib.data} !! repr + o.repr
    requires ob != ib && ob.data != ib.data && ob.Valid() && ib.Valid() && ob.size == 0 && ib.size == 0
    ensures Around(o, ob, ib, Inner(repr, [], [], [], false))
  {
    hide Net.Valid;
  }

  /** Two proxies that have just been joined, between two given outer sides. */
  method Join(o: Net, po: Net, bigA: bool, bitsA: nat, bigB: bool, bitsB: nat)
    returns (a: Relay, b: Relay, ghost j: Seam)
    requires bitsA >= 32 && bitsB >= 32 && o.repr !! po.repr && Untried(o) && Untried(po)
    ensures Pair(a, b, j) && Within(a) && Within(b) && a.o == o && b.o == po
    ensures fresh(a.i.repr) && fresh(b.i.repr) && fresh({a.ob, a.ob.data, a.ib, a.ib.data})
    ensures fresh({b.ob, b.ob.data, b.ib, b.ib.data})
  {
    hide Net.Valid, Joined, Around, Flying, Untried;
    UntriedFacts(o);
    UntriedFacts(po);
    var i, z;
    i, z, j := Inners(bigA, bitsA, bigB, bitsB);
    var ob, ib := NewBuffers();
    var pob, pib := NewBuffers();
    NewStation(o, ob, ib, i.repr);
    NewStation(po, pob, pib, z.repr);
    a, b := Relay(o, i, ob, ib), Relay(po, z, pob, pib);
  }

  /** Two new inner sides between two given outer sides, and a run. */
  method Between(schedule: seq<(bool, Act)>, o: Net, po: Net, bigA: bool, bitsA: nat, bigB: bool, bitsB: nat)
    requires SecretsCommute() && bitsA >= 32 && bitsB >= 32 && o.repr !! po.repr && Untried(o) && Untried(po)
    modifies o.mine, o.inp`taken, o.inp`recvs, o.out`sent, o.out`sends
    modifies po.mine, po.inp`taken, po.inp`recvs, po.out`sent, po.out`sends
    ensures po.out.sent <= o.inp.sent && o.out.sent <= po.inp.sent
    ensures o.inp.sent == old(o.inp.sent) && po.inp.sent == old(po.inp.sent)
  {
    hide Net.Valid, Pair, SecretsCommute, Untried;
    UntriedFacts(o);
    UntriedFacts(po);
    ghost var j;
    var a, b;
    a, b, j := Join(o, po, bigA, bitsA, bigB, bitsB);
    j := RunOn(schedule, a, b, j);
    OnePrefix(a, b, j);
    PairSwap(a, b, j);
    OnePrefix(b, a, Turned(j));
  }

  lemma OnePrefix(a: Relay, b: Relay, j: Seam)
    requires Pair(a, b, j)
    ensures b.o.out.sent <= a.o.inp.sent
  {
    hide Pair, EndsOf, Owed;
    BytesInAreBytesOut(a, b, j);
    hide *;
    PrefixOfPrefix(b.o.out.sent, a.o.inp.sent, a.o.inp.taken);
  }

  lemma PrefixOfPrefix(a: seq<u8>, s: seq<u8>, n: nat)
    requires n <= |s| && a <= s[..n]
    ensures a <= s
  {
  }

  /**
    The run from end to end: for every schedule of key exchange, reading, writing
    and closing on both proxies, and every way the wires cut the streams up, the
    server's socket has been given a beginning of what the client has to send,
    and the client's of what the server has to send.
  */
  method Run(
      schedule: seq<(bool, Act)>, fromClient: seq<u8>, fromServer: seq<u8>,
      bigA: bool, bitsA: nat, bigB: bool, bitsB: nat)
    returns (toServer: seq<u8>, toClient: seq<u8>)
    requires SecretsCommute() && bitsA >= 32 && bitsB >= 32
    ensures toServer <= fromClient && toClient <= fromServer
  {
    hide Net.Valid, SecretsCommute;
    var client := NewOuter(4, fromClient, bigA, bitsA);
    var server := NewOuter(4, fromServer, bigB, bitsB);
    assert Untried(client) && Untried(server) && client.repr !! server.repr;
    Between(schedule, client, server, bigA, bitsA, bigB, bitsB);
    toServer, toClient := server.out.sent, client.out.sent;
  }
}
