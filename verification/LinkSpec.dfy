/**
  One direction of a connection between two netnacl endpoints, on values: the
  sender's key and frames, the wire, and the receiver's progress through them.
*/
module LinkSpec {
  import opened Bits
  import opened StreamSpec
  import opened Records
  import opened Receiving

  /**
    The history of one direction: the frames made so far (the last one may be in
    flight), how many the receiver has finished, the plaintext `netnacl_send`
    reported as sent, and the plaintext `netnacl_recv` returned.
  */
  datatype Flow = Flow(frames: seq<Frame>, done: nat, accepted: seq<u8>, delivered: seq<u8>)

  datatype Sender = Sender(sent: seq<u8>, pk: seq<u8>, keySent: nat, remaining: seq<u8>, key: Key, ready: bool)

  datatype Receiver = Receiver(taken: nat, keyRecvd: nat, peerPk: seq<u8>, state: RecvState, key: Key, big: bool)

  /** All that was written and is about to be: one public key, then the frames. */
  ghost predicate SenderOk(s: Sender, fl: Flow) {
    && |s.pk| == 32 && s.keySent <= 32
    && (s.ready ==> s.keySent == 32)
    && (!s.ready ==> fl.frames == [])
    && s.sent + s.pk[s.keySent..] + s.remaining == s.pk + EncodeAll(fl.frames, s.key)
    && (if s.remaining == [] then fl.accepted == Texts(fl.frames)
        else fl.frames != [] && fl.accepted == Texts(fl.frames[..|fl.frames| - 1]) && s.keySent == 32)
  }

  ghost predicate Idle(s: RecvState) {
    Sized(s) && s.hdrBytes == 0 && s.ctBytes == 0 && s.ptLen == 0 && s.ptPos == 0
  }

  ghost predicate ReceiverOk(r: Receiver, s: Sender, fl: Flow) {
    && |r.peerPk| == 32 && r.keyRecvd <= 32 && r.taken <= |s.sent|
    && fl.done <= |fl.frames|
    && (r.keyRecvd < 32 ==>
          && r.taken == r.keyRecvd && r.peerPk[..r.keyRecvd] == s.sent[..r.keyRecvd]
          && Idle(r.state) && fl.done == 0 && fl.delivered == [])
    && (r.keyRecvd == 32 ==>
          && r.taken >= 32 && r.peerPk == s.pk && s.keySent == 32
          && (s.ready ==> s.key == r.key)
          && Follows(r.state, fl.frames[fl.done..], r.key, r.big, s.sent[r.taken..], s.remaining))
    && fl.delivered + Owed(r.state, fl.frames[fl.done..]) == Texts(fl.frames)
  }

  // ---------- what the invariant says to a user ----------

  /** Received is a prefix of sent: nothing of a frame still in flight has come out. */
  lemma DeliveredIsPrefix(s: Sender, r: Receiver, fl: Flow)
    requires SenderOk(s, fl) && ReceiverOk(r, s, fl)
    ensures fl.delivered <= fl.accepted
    ensures s.remaining == [] ==>
      fl.accepted == fl.delivered + Owed(r.state, fl.frames[fl.done..])
  {
    hide Follows, Owed, EncodeAll, Texts;
    if s.remaining != [] {
      var n, rest := |fl.frames| - 1, fl.frames[fl.done..];
      InFlightNotOpened(s, r, fl);
      OwedHasLast(r.state, rest);
      assert fl.frames == fl.frames[..n] + [fl.frames[n]];
      TextsConcat(fl.frames[..n], [fl.frames[n]]);
      TextsOne(fl.frames[n]);
      SuffixCancel(fl.delivered, Owed(r.state, rest), fl.accepted, fl.frames[n].text);
    }
  }

  lemma SuffixCancel(a: seq<u8>, b: seq<u8>, c: seq<u8>, t: seq<u8>)
    requires a + b == c + t && |b| >= |t|
    ensures a <= c
  {
    assert a == (a + b)[..|a|];
    assert c == (c + t)[..|c|];
  }

  lemma TextsOne(f: Frame)
    ensures Texts([f]) == f.text
  {
    assert [f][1..] == [];
    assert Texts([f][1..]) == [];
  }

  /** While a frame is in flight the receiver has not finished it, nor begun to hand it out. */
  lemma InFlightNotOpened(s: Sender, r: Receiver, fl: Flow)
    requires SenderOk(s, fl) && ReceiverOk(r, s, fl) && s.remaining != []
    ensures fl.done < |fl.frames| && r.state.ptPos <= |fl.frames[fl.done].text|
    ensures fl.done == |fl.frames| - 1 ==> r.state.ptPos == 0 && r.state.ptLen == 0
  {
    hide Encode, EncodeAll, Header, Sealed, LoadU16;
    var rest := fl.frames[fl.done..];
    if r.keyRecvd == 32 && |rest| == 1 && r.state.ptLen > 0 {
      RestNext(rest, r.key);
      EncodeNone(r.key);
    }
  }

  /** The text of the last unfinished frame is owed in full unless it is being handed out. */
  lemma OwedHasLast(st: RecvState, fs: seq<Frame>)
    requires fs != [] && st.ptPos <= |fs[0].text| && (|fs| == 1 ==> st.ptPos == 0)
    ensures |Owed(st, fs)| >= |fs[|fs| - 1].text|
  {
    if |fs| > 1 {
      var tail := fs[1..];
      var n := |tail| - 1;
      assert tail == tail[..n] + [tail[n]];
      TextsConcat(tail[..n], [tail[n]]);
      TextsOne(tail[n]);
    }
  }

  /** Decrypted and not yet handed out: `recv_pt` from `recv_pt_pos` on. */
  ghost function Residue(st: RecvState): (r: seq<u8>) {
    if st.ptPos <= st.ptLen <= |st.pt| then st.pt[st.ptPos..st.ptLen] else []
  }

  /** The frames that have left the sender completely and that the receiver has not opened. */
  ghost function Unopened(s: Sender, r: Receiver, fl: Flow): (res: seq<Frame>) {
    var k := fl.done + if r.state.ptLen > 0 then 1 else 0;
    var n := |fl.frames| - if s.remaining != [] then 1 else 0;
    if k <= n then fl.frames[k..n] else []
  }

  /**
    The whole account: what was accepted is what was delivered, then the residue,
    then the text of the complete frames that have not been opened.
  */
  lemma Account(s: Sender, r: Receiver, fl: Flow)
    requires SenderOk(s, fl) && ReceiverOk(r, s, fl)
    ensures r.state.ptPos <= r.state.ptLen <= |r.state.pt|
    ensures fl.accepted == fl.delivered + Residue(r.state) + Texts(Unopened(s, r, fl))
  {
    hide Texts, EncodeAll, Owed, Follows;
    OwedIs(s, r, fl);
    var k, n := fl.done + if r.state.ptLen > 0 then 1 else 0, |fl.frames| - 1;
    if s.remaining == [] {
      assert fl.frames[k..|fl.frames|] == fl.frames[k..];
      Associate(fl.delivered, Residue(r.state), Texts(fl.frames[k..]));
    } else {
      InFlightNotOpened(s, r, fl);
      hide SenderOk, ReceiverOk, Residue;
      LastApart(fl.frames, 0);
      LastApart(fl.frames, k);
      assert fl.frames[0..] == fl.frames && fl.frames[0..n] == fl.frames[..n];
      Cancel(fl.delivered, Residue(r.state), Texts(fl.frames[k..n]), fl.accepted, fl.frames[n].text);
    }
  }

  lemma LastApart(fs: seq<Frame>, k: nat)
    requires k < |fs|
    ensures Texts(fs[k..]) == Texts(fs[k..|fs| - 1]) + fs[|fs| - 1].text
  {
    hide Texts;
    var n := |fs| - 1;
    assert fs[k..] == fs[k..n] + [fs[n]];
    TextsConcat(fs[k..n], [fs[n]]);
    TextsOne(fs[n]);
  }

  lemma OwedIs(s: Sender, r: Receiver, fl: Flow)
    requires SenderOk(s, fl) && ReceiverOk(r, s, fl)
    ensures var k := fl.done + if r.state.ptLen > 0 then 1 else 0;
            && r.state.ptPos <= r.state.ptLen <= |r.state.pt| && k <= |fl.frames|
            && Owed(r.state, fl.frames[fl.done..]) == Residue(r.state) + Texts(fl.frames[k..])
  {
    hide Texts, EncodeAll, Rest, Encode, Header, Sealed, LoadU16, SenderOk;
    var fs := fl.frames[fl.done..];
    if r.state.ptLen > 0 {
      assert fs != [] && HasPlain(r.state, fs[0]);
      assert fs[1..] == fl.frames[fl.done + 1..];
      SliceParts(r.state.pt, r.state.ptLen, r.state.ptPos, r.state.ptLen - r.state.ptPos);
      assert r.state.pt[..r.state.ptLen][r.state.ptLen..] == [];
    } else {
      OwedFresh(r.state, fs);
    }
  }

  lemma Cancel(a: seq<u8>, b: seq<u8>, c: seq<u8>, d: seq<u8>, t: seq<u8>)
    requires a + (b + (c + t)) == d + t
    ensures d == a + b + c
  {
    assert a + (b + (c + t)) == (a + b + c) + t;
    assert ((a + b + c) + t)[..|a + b + c|] == a + b + c;
    assert (d + t)[..|d|] == d;
  }

  // ---------- what every step keeps ----------

  lemma RestAppend(fs: seq<Frame>, f: Frame, key: Key, pos: nat)
    requires if fs == [] then pos == 0 else pos <= 58 + |fs[0].text|
    ensures Rest(fs + [f], key, pos) == Rest(fs, key, pos) + Encode(f, key)
  {
    hide Encode;
    if fs == [] {
      assert fs + [f] == [f] && [f][1..] == [];
      assert Encode(f, key)[0..] == Encode(f, key);
      EncodeNone(key);
    } else {
      assert (fs + [f])[1..] == fs[1..] + [f];
      EncodeAllAppend(fs[1..], f, key);
    }
  }

  lemma OwedAppend(st: RecvState, fs: seq<Frame>, f: Frame)
    requires if fs == [] then st.ptPos == 0 else st.ptPos <= |fs[0].text|
    ensures Owed(st, fs + [f]) == Owed(st, fs) + f.text
  {
    if fs == [] {
      assert fs + [f] == [f];
      assert [f][1..] == [] && f.text[0..] == f.text;
      assert Texts([]) == [];
    } else {
      assert (fs + [f])[1..] == fs[1..] + [f];
      TextsConcat(fs[1..], [f]);
      TextsOne(f);
    }
  }

  /** A new frame at the end of the stream does not disturb the receiver. */
  lemma FollowsAppend(st: RecvState, fs: seq<Frame>, f: Frame, key: Key, big: bool, pending: seq<u8>, tail: seq<u8>)
    requires Follows(st, fs, key, big, pending, tail)
    ensures Follows(st, fs + [f], key, big, pending, tail + Encode(f, key))
    ensures Owed(st, fs + [f]) == Owed(st, fs) + f.text
  {
    hide Encode, Rest, Sealed, Header, LoadU16;
    FollowsPos(st, fs, key, big, pending, tail);
    RestAppend(fs, f, key, st.hdrBytes + st.ctBytes);
    OwedAppend(st, fs, f);
    assert pending + (tail + Encode(f, key)) == (pending + tail) + Encode(f, key);
    if fs == [] {
      assert (fs + [f])[0] == f;
      assert st.hdr[..0] == Header(f)[..0];
    } else {
      assert (fs + [f])[0] == fs[0];
    }
  }

  lemma FollowsPos(st: RecvState, fs: seq<Frame>, key: Key, big: bool, pending: seq<u8>, tail: seq<u8>)
    requires Follows(st, fs, key, big, pending, tail)
    ensures if fs == [] then st.hdrBytes + st.ctBytes == 0 && st.ptPos == 0
            else st.hdrBytes + st.ctBytes <= 58 + |fs[0].text| && st.ptPos <= |fs[0].text|
  {
    hide Rest, Sealed, Header, LoadU16;
  }

  /** Bytes moving from the send buffer to the wire are still the same stream. */
  lemma FollowsMove(
      st: RecvState, fs: seq<Frame>, key: Key, big: bool, p: seq<u8>, t: seq<u8>, p': seq<u8>, t': seq<u8>)
    requires Follows(st, fs, key, big, p, t) && p + t == p' + t'
    ensures Follows(st, fs, key, big, p', t')
  {
  }

  ghost function AfterSend(fl: Flow, isNew: bool, f: Frame, remaining: seq<u8>): (r: Flow)
    requires isNew || fl.frames != []
  {
    var frames := if isNew then fl.frames + [f] else fl.frames;
    fl.(frames := frames, accepted := Texts(if remaining == [] then frames else frames[..|frames| - 1]))
  }

  lemma SendKeepsSender(s: Sender, s': Sender, fl: Flow, f: Frame)
    requires SenderOk(s, fl) && s.ready && SendStep(s, s', f)
    ensures s.remaining != [] ==> fl.frames != []
    ensures SenderOk(s', AfterSend(fl, s.remaining == [], f, s'.remaining))
  {
    hide Encode, Texts, EncodeAll;
    assert s.pk[32..] == [];
    if s.remaining == [] {
      EncodeAllAppend(fl.frames, f, s.key);
      var all := EncodeAll(fl.frames, s.key);
      assert s.sent + s.pk[32..] + s.remaining == s.sent;
      assert s'.sent + s'.remaining == s.pk + (all + Encode(f, s.key));
      assert (fl.frames + [f])[..|fl.frames|] == fl.frames;
    }
    assert s'.sent + s'.pk[32..] + s'.remaining == s'.sent + s'.remaining;
  }

  /** What `netnacl_send` does: the stream grows by a new frame if none was in flight. */
  ghost predicate SendStep(s: Sender, s': Sender, f: Frame) {
    && s' == s.(sent := s'.sent, remaining := s'.remaining)
    && s.sent <= s'.sent
    && s'.sent + s'.remaining == s.sent + if s.remaining == [] then Encode(f, s.key) else s.remaining
  }

  lemma SendKeepsReceiver(s: Sender, s': Sender, r: Receiver, fl: Flow, f: Frame)
    requires SenderOk(s, fl) && ReceiverOk(r, s, fl) && s.ready && SendStep(s, s', f)
    requires s.remaining != [] ==> fl.frames != []
    ensures ReceiverOk(r, s', AfterSend(fl, s.remaining == [], f, s'.remaining))
  {
    hide Encode, Texts, EncodeAll, Follows, Owed;
    var isNew := s.remaining == [];
    var fs, fl' := fl.frames[fl.done..], AfterSend(fl, isNew, f, s'.remaining);
    assert s'.sent[..r.taken] == s.sent[..r.taken];
    MovedBytes(s, s', r.taken, if isNew then Encode(f, s.key) else s.remaining);
    if isNew {
      assert fl'.frames[fl.done..] == fs + [f];
      TextsConcat(fl.frames, [f]);
      TextsOne(f);
    }
    if r.keyRecvd == 32 {
      if isNew {
        FollowsAppend(r.state, fs, f, r.key, r.big, s.sent[r.taken..], s.remaining);
      }
      FollowsMove(r.state, fl'.frames[fl.done..], r.key, r.big,
                  s.sent[r.taken..], if isNew then s.remaining + Encode(f, s.key) else s.remaining,
                  s'.sent[r.taken..], s'.remaining);
    } else if isNew {
      IdleOwed(r.state, fs, f);
    }
  }

  lemma IdleOwed(st: RecvState, fs: seq<Frame>, f: Frame)
    requires Idle(st)
    ensures Owed(st, fs + [f]) == Owed(st, fs) + f.text
  {
    OwedAppend(st, fs, f);
  }

  lemma MovedBytes(s: Sender, s': Sender, taken: nat, stuff: seq<u8>)
    requires s.sent <= s'.sent && s'.sent + s'.remaining == s.sent + stuff && taken <= |s.sent|
    ensures s'.sent[taken..] + s'.remaining == s.sent[taken..] + stuff
  {
    assert s'.sent[taken..] + s'.remaining == (s'.sent + s'.remaining)[taken..];
    assert s.sent[taken..] + stuff == (s.sent + stuff)[taken..];
  }

  /** A finished frame is left behind, or none is. */
  lemma SuffixOf(fs: seq<Frame>, fs': seq<Frame>)
    requires fs' == fs || (fs != [] && fs' == fs[1..])
    ensures |fs'| <= |fs| && fs' == fs[|fs| - |fs'|..]
  {
  }

  /** What `netnacl_recv` does: data comes off what is owed, and a finished frame is left behind. */
  lemma RecvKeeps(s: Sender, r: Receiver, r': Receiver, fl: Flow, data: seq<u8>, fs': seq<Frame>)
    requires SenderOk(s, fl) && ReceiverOk(r, s, fl) && r.keyRecvd == 32
    requires r' == r.(taken := r'.taken, state := r'.state) && r.taken <= r'.taken <= |s.sent|
    requires var fs := fl.frames[fl.done..];
             && |fs'| <= |fs| && fs' == fs[|fs| - |fs'|..]
             && Owed(r.state, fs) == data + Owed(r'.state, fs')
             && Follows(r'.state, fs', r.key, r.big, s.sent[r'.taken..], s.remaining)
    ensures var fl' := fl.(done := |fl.frames| - |fs'|, delivered := fl.delivered + data);
            SenderOk(s, fl') && ReceiverOk(r', s, fl')
  {
    hide EncodeAll, Texts, Follows, Owed;
    var fs := fl.frames[fl.done..];
    assert fs[|fs| - |fs'|..] == fl.frames[|fl.frames| - |fs'|..];
    assert fl.delivered + (data + Owed(r'.state, fs')) == (fl.delivered + data) + Owed(r'.state, fs');
  }

  /** More frames were made, more of them sent, and nothing else changed about the sender. */
  ghost predicate Grew(s: Sender, s': Sender, fs: seq<Frame>, fs': seq<Frame>) {
    s' == s.(sent := s'.sent, remaining := s'.remaining) && s.sent <= s'.sent && fs <= fs'
  }

  /** More of the stream was read, and the frames to come are the last ones of what they were. */
  ghost predicate Heard(r: Receiver, r': Receiver, fs: seq<Frame>, fs': seq<Frame>) {
    && r' == r.(taken := r'.taken, state := r'.state) && r.taken <= r'.taken
    && |fs'| <= |fs| && fs' == fs[|fs| - |fs'|..]
  }

  /** Any number of new frames at the end of the stream. */
  lemma {:induction false} FollowsAppendAll(
      st: RecvState, fs: seq<Frame>, gs: seq<Frame>, key: Key, big: bool, pending: seq<u8>, tail: seq<u8>)
    requires Follows(st, fs, key, big, pending, tail)
    ensures Follows(st, fs + gs, key, big, pending, tail + EncodeAll(gs, key))
  {
    hide Follows, Encode;
    EncodeNone(key);
    if gs == [] {
      assert fs + gs == fs && tail + [] == tail;
    } else {
      var n := |gs| - 1;
      var init, f := gs[..n], gs[n];
      FollowsAppendAll(st, fs, init, key, big, pending, tail);
      FollowsAppend(st, fs + init, f, key, big, pending, tail + EncodeAll(init, key));
      EncodeAllAppend(init, f, key);
      assert gs == init + [f];
      assert (fs + init) + [f] == fs + gs;
      Associate(tail, EncodeAll(init, key), Encode(f, key));
    }
  }

  lemma OwedAppendAll(st: RecvState, fs: seq<Frame>, gs: seq<Frame>)
    requires if fs == [] then st.ptPos == 0 else st.ptPos <= |fs[0].text|
    ensures Owed(st, fs + gs) == Owed(st, fs) + Texts(gs)
  {
    if fs == [] {
      assert fs + gs == gs;
      OwedFresh(st, gs);
    } else {
      assert (fs + gs)[1..] == fs[1..] + gs;
      TextsConcat(fs[1..], gs);
    }
  }

  /** More frames and more bytes on the wire do not disturb the receiver. */
  lemma GrewKeeps(s: Sender, s': Sender, r: Receiver, fl: Flow, fl': Flow)
    requires SenderOk(s, fl) && ReceiverOk(r, s, fl) && SenderOk(s', fl')
    requires Grew(s, s', fl.frames, fl'.frames) && fl' == fl.(frames := fl'.frames, accepted := fl'.accepted)
    ensures ReceiverOk(r, s', fl')
  {
    hide Follows, Owed, EncodeAll, Texts;
    var fs, extra := fl.frames[fl.done..], fl'.frames[|fl.frames|..];
    assert fl'.frames == fl.frames + extra;
    assert fl'.frames[fl.done..] == fs + extra;
    TextsConcat(fl.frames, extra);
    assert s'.sent[..r.taken] == s.sent[..r.taken];
    if r.keyRecvd == 32 {
      FollowsPos(r.state, fs, r.key, r.big, s.sent[r.taken..], s.remaining);
      OwedAppendAll(r.state, fs, extra);
      GrewStream(s, s', fl, fl', extra);
      MovedBytes(s, s', r.taken, s.remaining + EncodeAll(extra, s.key));
      FollowsAppendAll(r.state, fs, extra, r.key, r.big, s.sent[r.taken..], s.remaining);
      if !s.ready {
        EncodeNone(s.key);
        EncodeNone(r.key);
      }
      FollowsMove(r.state, fs + extra, r.key, r.big, s.sent[r.taken..], s.remaining + EncodeAll(extra, r.key),
                  s'.sent[r.taken..], s'.remaining);
    } else {
      IdlePos(r.state);
      OwedAppendAll(r.state, fs, extra);
    }
    Associate(fl.delivered, Owed(r.state, fs), Texts(extra));
  }

  lemma IdlePos(st: RecvState)
    requires Idle(st)
    ensures st.ptPos == 0
  {
  }

  lemma GrewStream(s: Sender, s': Sender, fl: Flow, fl': Flow, extra: seq<Frame>)
    requires SenderOk(s, fl) && SenderOk(s', fl') && s.keySent == 32 && fl'.frames == fl.frames + extra
    requires Grew(s, s', fl.frames, fl'.frames)
    ensures s'.sent + s'.remaining == s.sent + (s.remaining + EncodeAll(extra, s.key))
    ensures !s.ready ==> extra == []
  {
    hide EncodeAll, Texts;
    EncodeAllConcat(fl.frames, extra, s.key);
    var all, more := EncodeAll(fl.frames, s.key), EncodeAll(extra, s.key);
    assert s.pk[32..] == [];
    assert s.sent + s.remaining == s.pk + all;
    assert s'.sent + s'.remaining == s.pk + (all + more);
    Associate(s.pk, all, more);
    Associate(s.sent, s.remaining, more);
  }

  /** Reading on keeps the receiver in step, whatever it read. */
  lemma HeardKeeps(s: Sender, r: Receiver, r': Receiver, fl: Flow, fs': seq<Frame>, got: seq<u8>)
    requires SenderOk(s, fl) && ReceiverOk(r, s, fl) && r.keyRecvd == 32 && r'.taken <= |s.sent|
    requires Heard(r, r', fl.frames[fl.done..], fs') && fl.delivered <= got
    requires Follows(r'.state, fs', r.key, r.big, s.sent[r'.taken..], s.remaining)
    requires got + Owed(r'.state, fs') == Texts(fl.frames)
    ensures ReceiverOk(r', s, fl.(done := |fl.frames| - |fs'|, delivered := got))
  {
    hide Follows, Owed, EncodeAll, Texts;
    var data, owed, owed' := got[|fl.delivered|..], Owed(r.state, fl.frames[fl.done..]), Owed(r'.state, fs');
    assert got == fl.delivered + data;
    Associate(fl.delivered, data, owed');
    assert (fl.delivered + owed)[|fl.delivered|..] == owed;
    assert (fl.delivered + (data + owed'))[|fl.delivered|..] == data + owed';
    RecvKeeps(s, r, r', fl, data, fs');
  }

  /** The key exchange of the sending side: the same key goes on, or a new one if none was begun. */
  ghost predicate KeySendStep(s: Sender, s': Sender) {
    && s.keySent <= s'.keySent <= 32 && |s'.pk| == 32
    && (s.keySent > 0 ==> s'.pk == s.pk)
    && s'.sent == s.sent + s'.pk[s.keySent..s'.keySent]
    && s'.remaining == s.remaining
    && (s.ready ==> s'.ready && s'.key == s.key)
    && (s'.ready ==> s'.keySent == 32)
  }

  /** The key exchange of the receiving side: the next bytes of the stream, up to the peer's whole key. */
  ghost predicate KeyRecvStep(r: Receiver, r': Receiver, stream: seq<u8>) {
    && |r.peerPk| == 32 && r.keyRecvd <= r'.keyRecvd <= 32
    && r'.taken == r.taken + (r'.keyRecvd - r.keyRecvd) <= |stream|
    && r'.peerPk == Put(r.peerPk, r.keyRecvd, stream[r.taken..r'.taken])
    && r'.state == r.state && r'.big == r.big
    && (r.keyRecvd == 32 ==> r'.key == r.key)
  }

  lemma KeySendSender(s: Sender, s': Sender, fl: Flow)
    requires SenderOk(s, fl) && KeySendStep(s, s')
    ensures SenderOk(s', fl) && s.sent <= s'.sent
    ensures s.keySent == 32 ==> s'.sent == s.sent
    ensures s.keySent < 32 ==> s.sent == s.pk[..s.keySent]
  {
    hide Texts, EncodeAll;
    EncodeNone(s.key);
    EncodeNone(s'.key);
    if s.keySent < 32 {
      assert s.sent + s.pk[s.keySent..] + [] == s.sent + s.pk[s.keySent..] && s.pk + [] == s.pk;
      assert s.sent == (s.sent + s.pk[s.keySent..])[..|s.sent|] == s.pk[..s.keySent];
      assert s'.sent == s'.pk[..s'.keySent];
    } else {
      assert s'.pk[32..32] == [];
      assert s'.sent == s.sent;
    }
  }

  lemma KeySendKeeps(s: Sender, s': Sender, r: Receiver, fl: Flow)
    requires SenderOk(s, fl) && ReceiverOk(r, s, fl) && KeySendStep(s, s')
    requires r.keyRecvd == 32 && s'.ready ==> s'.key == r.key
    ensures SenderOk(s', fl) && ReceiverOk(r, s', fl)
  {
    hide Texts, Follows, Owed, EncodeAll;
    KeySendSender(s, s', fl);
    if !s.ready && r.keyRecvd == 32 {
      assert fl.frames[fl.done..] == [];
    }
  }

  lemma StartSender(s: Sender)
    requires s.sent == [] && |s.pk| == 32 && s.keySent == 0 && s.remaining == [] && !s.ready
    ensures SenderOk(s, Flow([], 0, [], []))
  {
    EncodeNone(s.key);
    assert s.pk[0..] == s.pk && [] + s.pk + [] == s.pk + [];
  }

  /** The key exchange of the receiving side: exactly the peer's 32 bytes, then the frames. */
  lemma KeyRecvKeeps(s: Sender, r: Receiver, r': Receiver, fl: Flow)
    requires SenderOk(s, fl) && ReceiverOk(r, s, fl)
    requires r.keyRecvd <= r'.keyRecvd <= 32 && r'.taken == r.taken + (r'.keyRecvd - r.keyRecvd) <= |s.sent|
    requires r'.peerPk == Put(r.peerPk, r.keyRecvd, s.sent[r.taken..r'.taken])
    requires r'.state == r.state && r'.big == r.big
    requires r.keyRecvd == 32 ==> r'.key == r.key
    requires r'.keyRecvd == 32 && s.ready ==> s.key == r'.key
    ensures ReceiverOk(r', s, fl)
  {
    hide Texts, Follows, Owed, EncodeAll, Rest;
    if r.keyRecvd < 32 {
      PrefixGrows(r.peerPk, r.keyRecvd, s.sent[r.taken..r'.taken], s.sent);
      if r'.keyRecvd == 32 {
        AllKeyBytes(s, r', fl);
      }
    } else {
      assert r'.peerPk == r.peerPk;
    }
  }

  /** Thirty-two bytes from the front of the stream are the peer's whole key and nothing else. */
  lemma KeyComplete(s: Sender, fl: Flow, peerPk: seq<u8>)
    requires SenderOk(s, fl) && |s.sent| >= 32 && |peerPk| == 32 && peerPk[..32] == s.sent[..32]
    ensures s.keySent == 32 && peerPk == s.pk
    ensures s.sent[32..] + s.remaining == EncodeAll(fl.frames, s.key)
  {
    hide Encode;
    EncodeNone(s.key);
    assert |s.sent + s.pk[s.keySent..] + s.remaining| == |s.sent| + (32 - s.keySent) + |s.remaining|;
    assert s.keySent == 32;
    assert s.sent + s.pk[32..] + s.remaining == s.sent + s.remaining;
    assert (s.sent + s.remaining)[..32] == s.sent[..32] == s.pk;
    assert (s.sent + s.remaining)[32..] == s.sent[32..] + s.remaining;
    assert peerPk == peerPk[..32];
  }

  lemma AllKeyBytes(s: Sender, r: Receiver, fl: Flow)
    requires SenderOk(s, fl) && fl.done == 0 && r.taken == 32 <= |s.sent| && |r.peerPk| == 32
    requires r.peerPk[..32] == s.sent[..32] && Idle(r.state) && (s.ready ==> s.key == r.key)
    ensures s.keySent == 32 && r.peerPk == s.pk
    ensures Follows(r.state, fl.frames[0..], r.key, r.big, s.sent[32..], s.remaining)
  {
    hide Encode, Follows;
    KeyComplete(s, fl, r.peerPk);
    EncodeNone(s.key);
    EncodeNone(r.key);
    assert fl.frames[0..] == fl.frames;
    Begins(r.state, fl.frames, r.key, r.big, s.sent[32..], s.remaining);
  }

  /** A receiver at rest follows any stream of frames from its beginning. */
  lemma Begins(st: RecvState, fs: seq<Frame>, key: Key, big: bool, pending: seq<u8>, tail: seq<u8>)
    requires Idle(st) && pending + tail == EncodeAll(fs, key)
    ensures Follows(st, fs, key, big, pending, tail) && Owed(st, fs) == Texts(fs)
  {
    hide Encode, Header, Sealed, LoadU16, Texts;
    OwedFresh(st, fs);
    if fs != [] {
      assert Encode(fs[0], key)[0..] == Encode(fs[0], key);
      assert st.hdr[..0] == Header(fs[0])[..0];
    }
  }
}
