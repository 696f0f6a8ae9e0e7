/**
  netnacl_recv when the peer may send anything: a reader of the whole stream as
  the reference, and the proof that the resumable receiver agrees with it.
*/
module AnyPeer {
  import opened Bits
  import opened StreamSpec
  import opened Records
  import opened Receiving
  import opened LinkSpec
  import opened NetNacl

  // ---------- the reference ----------

  /** The length field, in network order. */
  function Length(t: seq<u8>): (r: u16)
    requires |t| >= 26
  {
    t[0] as int * 256 + t[1] as int
  }

  function First(t: seq<u8>, key: Key): (r: Opened)
    requires |t| >= 26 && |t| >= 26 + Length(t)
  {
    Unbox(t[26..26 + Length(t)], t[2..26], key)
  }

  /** In front stands a record that is not too long, is all there, opens, and has a text. */
  ghost predicate Leads(t: seq<u8>, key: Key) {
    |t| >= 26 && 32 < Length(t) <= 4128 && |t| >= 26 + Length(t) && First(t, key).Opened?
  }

  ghost function FirstText(t: seq<u8>, key: Key): (r: seq<u8>)
    requires Leads(t, key)
  {
    First(t, key).m[32..]
  }

  /** Why reading ended: more has to come, or it never goes on. */
  datatype End = Waiting | TooLong | Refused | NoText

  datatype Reading = Reading(text: seq<u8>, end: End)

  ghost function EndAt(t: seq<u8>, key: Key): (r: End) {
    if |t| < 26 then Waiting
    else if Length(t) > 4128 then TooLong
    else if |t| < 26 + Length(t) then Waiting
    else if First(t, key).Forged? then Refused
    else NoText
  }

  /** One record after the other, until there is none that leads. */
  ghost function ReadAll(t: seq<u8>, key: Key): (r: Reading) {
    if Leads(t, key) then
      var rest := ReadAll(t[26 + Length(t)..], key);
      Reading(FirstText(t, key) + rest.text, rest.end)
    else Reading([], EndAt(t, key))
  }

  /** Nothing but records that lead. */
  ghost predicate Whole(w: seq<u8>, key: Key) {
    w == [] || (Leads(w, key) && Whole(w[26 + Length(w)..], key))
  }

  lemma ReadAllFirst(t: seq<u8>, key: Key)
    requires Leads(t, key)
    ensures ReadAll(t, key).text == FirstText(t, key) + ReadAll(t[26 + Length(t)..], key).text
    ensures ReadAll(t, key).end == ReadAll(t[26 + Length(t)..], key).end
  {
    hide FirstText, Leads;
  }

  /** What comes later does not change the record in front. */
  lemma LeadsStill(t: seq<u8>, y: seq<u8>, key: Key)
    requires Leads(t, key)
    ensures Leads(t + y, key) && Length(t + y) == Length(t) && FirstText(t + y, key) == FirstText(t, key)
    ensures (t + y)[26 + Length(t)..] == t[26 + Length(t)..] + y
  {
    hide Unbox;
    var n := 26 + Length(t);
    assert (t + y)[26..n] == t[26..n] && (t + y)[2..26] == t[2..26];
  }

  /** Reading goes on behind whole records as if they had not been there. */
  lemma {:induction false} ReadBehind(w: seq<u8>, y: seq<u8>, key: Key)
    requires Whole(w, key)
    ensures ReadAll(w + y, key) == Reading(ReadAll(w, key).text + ReadAll(y, key).text, ReadAll(y, key).end)
    decreases |w|
  {
    hide First, FirstText;
    if w == [] {
      assert w + y == y;
    } else {
      hide Leads, ReadAll;
      WholeFirst(w, key);
      var rest := w[26 + Length(w)..];
      LeadsStill(w, y, key);
      ReadAllFirst(w, key);
      ReadAllFirst(w + y, key);
      ReadBehind(rest, y, key);
      Associate(FirstText(w, key), ReadAll(rest, key).text, ReadAll(y, key).text);
    }
  }

  lemma WholeFirst(w: seq<u8>, key: Key)
    requires Whole(w, key) && w != []
    ensures Leads(w, key) && |w| >= 26 + Length(w) && Whole(w[26 + Length(w)..], key)
  {
    hide First, FirstText;
  }

  lemma {:induction false} WholeConcat(w: seq<u8>, v: seq<u8>, key: Key)
    requires Whole(w, key) && Whole(v, key)
    ensures Whole(w + v, key)
    decreases |w|
  {
    hide First, FirstText;
    if w == [] {
      assert w + v == v;
    } else {
      hide Leads;
      WholeFirst(w, key);
      LeadsStill(w, v, key);
      WholeConcat(w[26 + Length(w)..], v, key);
    }
  }

  /** More of the stream only adds to the text. */
  lemma {:induction false} MoreOnlyAdds(t: seq<u8>, y: seq<u8>, key: Key)
    ensures ReadAll(t, key).text <= ReadAll(t + y, key).text
    decreases |t|
  {
    hide First, FirstText;
    if Leads(t, key) {
      LeadsStill(t, y, key);
      MoreOnlyAdds(t[26 + Length(t)..], y, key);
      hide Leads, ReadAll;
      ReadAllFirst(t, key);
      ReadAllFirst(t + y, key);
    }
  }

  /** The reference reads back what a sender frames. */
  lemma {:induction false} FramesReadBack(fs: seq<Frame>, key: Key)
    requires forall f <- fs :: f.text != []
    ensures Whole(EncodeAll(fs, key), key) && ReadAll(EncodeAll(fs, key), key) == Reading(Texts(fs), Waiting)
  {
    hide FirstText, Leads, Encode, EncodeAll, Texts;
    if fs == [] {
      EncodeNone(key);
      TextsNone();
      assert !Leads([], key) by { NothingLeads(key); }
    } else {
      EncodeAllFirst(fs, key);
      TextsFirst(fs);
      FrameLeads(fs[0], EncodeAll(fs[1..], key), key);
      FramesReadBack(fs[1..], key);
    }
  }

  lemma NothingLeads(key: Key)
    ensures !Leads([], key)
  {
  }

  lemma FrameLeads(f: Frame, y: seq<u8>, key: Key)
    requires f.text != []
    ensures var t := Encode(f, key) + y;
            && Leads(t, key) && Length(t) == 32 + |f.text| && t[26 + Length(t)..] == y
            && FirstText(t, key) == f.text
  {
    hide Box, Unbox, Zeros;
    var t, m := Encode(f, key) + y, Zeros(32) + f.text;
    assert m[..32] == Zeros(32) && m[32..] == f.text;
    UnboxBox(m, f.nonce, key);
    assert t[2..26] == f.nonce && t[26..26 + (32 + |f.text|)] == Sealed(f, key);
  }

  // ---------- the resumable receiver ----------

  /** The bytes p of the record that is being read are in the fields; a record that was opened is its text. */
  ghost predicate AtRecord(s: RecvState, p: seq<u8>, key: Key, big: bool) {
    && Ordered(s, big) && |p| == s.hdrBytes + s.ctBytes
    && (s.hdrBytes < 26 ==> p == s.hdr[..s.hdrBytes])
    && (s.hdrBytes == 26 ==>
          Length(p) == HdrLen(s, big) && p[2..26] == s.hdr[2..] && p[26..] == s.ct[..s.ctBytes])
    && (s.ptLen > 0 ==> First(p, key).Opened? && s.pt[..s.ptLen] == First(p, key).m[32..])
  }

  /** Whole records w and the bytes p of another have been read, and `got` has been handed out. */
  ghost predicate Reads(s: RecvState, w: seq<u8>, p: seq<u8>, got: seq<u8>, key: Key, big: bool) {
    Whole(w, key) && AtRecord(s, p, key, big) && got == ReadAll(w, key).text + s.pt[..s.ptPos]
  }

  /** A record that is all there has been opened, if it can be. */
  ghost predicate Settled(s: RecvState, key: Key, big: bool)
    requires Ordered(s, big)
  {
    Complete(s, big) && s.ptLen == 0 ==> s.ctBytes == 32 || Unbox(s.ct[..s.ctBytes], s.hdr[2..], key).Forged?
  }

  lemma HdrAtRecord(s: RecvState, p: seq<u8>, b: seq<u8>, key: Key, big: bool)
    requires AtRecord(s, p, key, big) && s.hdrBytes < 26 && s.hdrBytes + |b| <= 26
    ensures var s1 := HdrRead(s, b, big);
            && (Overlong(s1, big) ==> |p + b| == 26 && Length(p + b) > 4128)
            && (!Overlong(s1, big) ==> AtRecord(s1, p + b, key, big))
  {
    hide First, StoreU16, SwapToNet, LoadU16;
    var h := Put(s.hdr, s.hdrBytes, b);
    assert h[..s.hdrBytes + |b|] == p + b;
    if s.hdrBytes + |b| == 26 {
      assert h[..26] == h;
      SwappedLength(h, big);
      assert s.ct[..0] == (p + b)[26..];
    }
  }

  lemma SwappedLength(h: seq<u8>, big: bool)
    requires |h| == 26
    ensures var s := Swapped(h, big); LoadU16(s[0], s[1], big) == Length(h) && s[2..] == h[2..26]
  {
    hide LoadU16, StoreU16, SwapToNet, Length;
    SwapReads(h[0], h[1], big);
    LengthIs(h);
    LoadStored(Length(h), big);
  }

  lemma LengthIs(h: seq<u8>)
    requires |h| >= 26
    ensures Length(h) == h[0] as int * 256 + h[1] as int
  {
  }

  lemma SwapReads(b0: u8, b1: u8, big: bool)
    ensures SwapToNet(LoadU16(b0, b1, big), big) == b0 as int * 256 + b1 as int
  {
  }

  lemma CtAtRecord(s: RecvState, p: seq<u8>, b: seq<u8>, key: Key, big: bool)
    requires AtRecord(s, p, key, big) && s.hdrBytes == 26 && s.ctBytes + |b| <= HdrLen(s, big)
    ensures AtRecord(CtRead(s, b), p + b, key, big)
  {
    hide First, LoadU16;
    if b == [] {
      ReadNothing(s, big);
      assert p + b == p;
    } else {
      assert Put(s.ct, s.ctBytes, b)[..s.ctBytes + |b|] == s.ct[..s.ctBytes] + b;
      assert (p + b)[26..] == p[26..] + b && (p + b)[2..26] == p[2..26];
    }
  }

  lemma BoxAtRecord(s: RecvState, p: seq<u8>, x: seq<u8>, key: Key, big: bool)
    requires AtRecord(s, p, key, big) && Fits(s, x, big)
    ensures var s1 := BoxRead(s, x, big);
            && (Overlong(s1, big) ==> |p + x| == 26 && Length(p + x) > 4128 && s.ptPos == 0)
            && (!Overlong(s1, big) ==> AtRecord(s1, p + x, key, big))
            && s1.ptPos == s.ptPos && s1.pt == s.pt
  {
    hide AtRecord, Swapped, LoadU16, Put, Length;
    AtRecordFacts(s, p, key, big);
    var h := ToHdr(s, |x|);
    var b, y := x[..h], x[h..];
    assert x == b + y;
    Associate(p, b, y);
    var s1 := HdrPart(s, b, big);
    if s.hdrBytes < 26 {
      HdrAtRecord(s, p, b, key, big);
    } else {
      assert b == [] && p + b == p;
    }
    if y == [] {
      assert x == b;
      assert Put(s1.ct, s1.ctBytes, []) == s1.ct by { NoBytes(s1.ct, s1.ctBytes); }
    } else {
      CtAtRecord(s1, p + b, y, key, big);
    }
  }

  lemma NoBytes(s: seq<u8>, pos: nat)
    requires pos <= |s|
    ensures Put(s, pos, []) == s
  {
  }

  lemma AtRecordFacts(s: RecvState, p: seq<u8>, key: Key, big: bool)
    requires AtRecord(s, p, key, big)
    ensures Ordered(s, big) && |p| == s.hdrBytes + s.ctBytes
  {
    hide First, LoadU16;
  }

  /** Handing out: the text of the record in the fields comes next, and a record that is used up is left behind. */
  lemma OutReads(s: RecvState, w: seq<u8>, p: seq<u8>, got: seq<u8>, key: Key, big: bool, len: nat)
    returns (w': seq<u8>, p': seq<u8>)
    requires Reads(s, w, p, got, key, big)
    ensures var h := HandOut(s, key, big, len);
            && w' + p' == w + p && Reads(h.state, w', p', got + h.out, key, big)
            && Ordered(h.state, big) && Settled(h.state, key, big)
  {
    hide ReadAll, Whole, First, Decrypted, Copied, HdrLen, Unbox, Settled;
    w', p' := w, p;
    OutSettles(s, key, big, len);
    if Complete(s, big) {
      BoxOf(s, p, key, big);
      var s1 := s;
      if s.ptLen == 0 && First(p, key).Opened? {
        s1 := Decrypted(s, First(p, key).m);
        OpenedAtRecord(s, p, key, big);
      }
      if s1.ptLen > 0 {
        var n := |FromText(s1, len).out|;
        if s1.ptPos + n == s1.ptLen {
          w', p' := w + p, [];
          assert w' + p' == w + p;
          LastOut(s1, w, p, got, n, key, big);
        } else {
          PartOut(s1, w, p, got, n, key, big);
        }
      }
    }
    assert got + [] == got;
  }

  lemma OutSettles(s: RecvState, key: Key, big: bool, len: nat)
    requires Ordered(s, big)
    ensures var r := HandOut(s, key, big, len).state; Ordered(r, big) && Settled(r, key, big)
  {
    hide LoadU16, Unbox, Put, Zeros;
  }

  /** The fields hold what the record in front of p holds. */
  lemma BoxOf(s: RecvState, p: seq<u8>, key: Key, big: bool)
    requires AtRecord(s, p, key, big) && Complete(s, big)
    ensures |p| >= 26 && |p| == 26 + Length(p) && Length(p) == s.ctBytes
    ensures First(p, key) == Unbox(s.ct[..s.ctBytes], s.hdr[2..], key)
  {
    hide LoadU16, Unbox;
    assert p[26..26 + Length(p)] == p[26..];
  }

  lemma OpenedAtRecord(s: RecvState, p: seq<u8>, key: Key, big: bool)
    requires AtRecord(s, p, key, big) && Complete(s, big) && s.ptLen == 0 && First(p, key).Opened?
    ensures 32 <= |First(p, key).m| == s.ctBytes <= 4128
    ensures var s1 := Decrypted(s, First(p, key).m);
            AtRecord(s1, p, key, big) && s1.ptPos == 0 && s1.ptLen == s.ctBytes - 32 && Complete(s1, big)
  {
    hide LoadU16, Unbox;
    BoxOf(s, p, key, big);
    var m := First(p, key).m;
    assert Put(Put(s.pt, 0, m), 0, m[32..])[..|m| - 32] == m[32..];
  }

  lemma PartOut(s: RecvState, w: seq<u8>, p: seq<u8>, got: seq<u8>, n: nat, key: Key, big: bool)
    requires Reads(s, w, p, got, key, big) && s.ptLen > 0 && s.ptPos + n < s.ptLen
    ensures Reads(Copied(s, n), w, p, got + s.pt[s.ptPos..s.ptPos + n], key, big)
  {
    hide ReadAll, Whole, First, LoadU16, Zeros;
    assert s.pt[..s.ptPos + n] == s.pt[..s.ptPos] + s.pt[s.ptPos..s.ptPos + n];
    Associate(ReadAll(w, key).text, s.pt[..s.ptPos], s.pt[s.ptPos..s.ptPos + n]);
  }

  lemma LastOut(s: RecvState, w: seq<u8>, p: seq<u8>, got: seq<u8>, n: nat, key: Key, big: bool)
    requires Reads(s, w, p, got, key, big) && s.ptLen > 0 && s.ptPos + n == s.ptLen
    ensures Reads(Copied(s, n), w + p, [], got + s.pt[s.ptPos..s.ptPos + n], key, big)
  {
    hide ReadAll, Whole, First, LoadU16, Leads, Zeros;
    OneRecord(s, p, key, big);
    WholeConcat(w, p, key);
    ReadBehind(w, p, key);
    assert s.pt[..s.ptLen] == s.pt[..s.ptPos] + s.pt[s.ptPos..s.ptLen];
    Associate(ReadAll(w, key).text, s.pt[..s.ptPos], s.pt[s.ptPos..s.ptLen]);
    var s1 := Copied(s, n);
    assert s1.pt[..0] == [] && s1.hdr[..0] == [];
    assert got + s.pt[s.ptPos..s.ptPos + n] == ReadAll(w + p, key).text + s1.pt[..0];
  }

  /** A record that has been opened is whole, and its text is in the fields. */
  lemma OneRecord(s: RecvState, p: seq<u8>, key: Key, big: bool)
    requires AtRecord(s, p, key, big) && s.ptLen > 0
    ensures Whole(p, key) && ReadAll(p, key) == Reading(s.pt[..s.ptLen], Waiting)
  {
    hide LoadU16, Unbox;
    BoxOf(s, p, key, big);
    assert p[26 + Length(p)..] == [];
    assert !Leads([], key);
    assert FirstText(p, key) + [] == FirstText(p, key);
  }

  // ---------- what the state says about the stream ----------

  /** Handed out and not yet handed out are together what the reference reads, and nothing was too long. */
  lemma AllRead(s: RecvState, w: seq<u8>, p: seq<u8>, got: seq<u8>, key: Key, big: bool)
    requires Reads(s, w, p, got, key, big) && Settled(s, key, big)
    ensures got + Residue(s) == ReadAll(w + p, key).text && ReadAll(w + p, key).end != TooLong
  {
    hide Whole, ReadAll, LoadU16, First, AtRecord;
    ReadBehind(w, p, key);
    AtRecordFacts(s, p, key, big);
    if s.ptLen > 0 {
      OneRecord(s, p, key, big);
      assert s.pt[..s.ptLen] == s.pt[..s.ptPos] + s.pt[s.ptPos..s.ptLen];
      Associate(ReadAll(w, key).text, s.pt[..s.ptPos], s.pt[s.ptPos..s.ptLen]);
    } else {
      NoRecord(s, p, key, big);
      assert s.pt[..0] == [] && s.pt[0..0] == [];
    }
  }

  lemma NoRecord(s: RecvState, p: seq<u8>, key: Key, big: bool)
    requires AtRecord(s, p, key, big) && Settled(s, key, big) && s.ptLen == 0
    ensures ReadAll(p, key) == Reading([], EndAt(p, key)) && EndAt(p, key) != TooLong
  {
    hide LoadU16, First;
    if Complete(s, big) {
      BoxOf(s, p, key, big);
    }
  }

  /** A header that asks for too much is where the reference stops as well. */
  lemma StopsThere(w: seq<u8>, p: seq<u8>, key: Key)
    requires Whole(w, key) && |p| >= 26 && Length(p) > 4128
    ensures ReadAll(w + p, key) == Reading(ReadAll(w, key).text, TooLong)
  {
    hide Whole, First;
    ReadBehind(w, p, key);
    assert ReadAll(w, key).text + [] == ReadAll(w, key).text;
  }

  /** The shortest header that asks for too much: 4129 bytes. */
  lemma TooLongHeader(key: Key)
    ensures ReadAll([16, 33] + Zeros(24), key) == Reading([], TooLong)
  {
    StopsThere([], [16, 33] + Zeros(24), key);
    assert [] + ([16, 33] + Zeros(24)) == [16, 33] + Zeros(24);
    assert !Leads([], key);
  }

  // ---------- runs ----------

  /** One call of `netnacl_recv`; before it, anything may have arrived. */
  method Once(y: Endpoint, len: nat, ghost base: nat, ghost w: seq<u8>, ghost p: seq<u8>, ghost got: seq<u8>)
    returns (data: seq<u8>, safe: bool, ghost w': seq<u8>, ghost p': seq<u8>)
    requires y.Shape() && y.inp.Valid() && base <= y.inp.taken && y.inp.sent[base..y.inp.taken] == w + p
    requires Reads(y.RecvView(), w, p, got, y.symKey[..], y.bigEndian)
    modifies y`recvPtPos, y`recvPtLen, y`hdrBytesRecvd, y`ctBytesRecvd, y.recvHdr, y.recvPt, y.recvCt, y.inp
    ensures y.inp.Valid() && old(y.inp.taken) <= y.inp.taken && old(y.inp.sent) <= y.inp.sent
    ensures y.inp.sent[base..y.inp.taken] == w' + p' && y.symKey[..] == old(y.symKey[..])
    ensures safe ==> Reads(y.RecvView(), w', p', got + data, y.symKey[..], y.bigEndian)
    ensures safe ==> Ordered(y.RecvView(), y.bigEndian) && Settled(y.RecvView(), y.symKey[..], y.bigEndian)
    ensures !safe ==> data == [] && |p'| >= 26 && Length(p') > 4128
    ensures !safe ==> Whole(w', y.symKey[..]) && got == ReadAll(w', y.symKey[..]).text
  {
    hide ReadAll, Whole, First, AtRecord, FromText, Decrypted, Unbox, BoxRead, Fits, HdrLen, Put, Settled;
    var arrived: seq<u8> := *;
    y.inp.sent := y.inp.sent + arrived;
    var buf := new u8[len];
    ghost var s0, t0, key, big, b0 := y.RecvView(), y.inp.taken, y.symKey[..], y.bigEndian, buf[..];
    AtRecordFacts(s0, p, key, big);
    var ret;
    ret, safe := y.Recv(buf, 0, len);
    ghost var x := y.inp.sent[t0..y.inp.taken];
    ReadOn(old(y.inp.sent), arrived, base, t0, y.inp.taken, w, p);
    BoxAtRecord(s0, p, x, key, big);
    data, w', p' := [], w, p + x;
    if safe {
      data := if ret > 0 then buf[..ret] else [];
      w', p' := OutReads(BoxRead(s0, x, big), w, p + x, got, key, big, len);
      HandedOut(b0, buf[..], HandOut(BoxRead(s0, x, big), key, big, len).out);
    }
  }

  lemma ReadOn(s: seq<u8>, more: seq<u8>, base: nat, t0: nat, t1: nat, w: seq<u8>, p: seq<u8>)
    requires base <= t0 <= |s| && t0 <= t1 <= |s + more| && s[base..t0] == w + p
    ensures (s + more)[base..t1] == w + (p + (s + more)[t0..t1])
  {
    var all := s + more;
    assert all[base..t0] == s[base..t0] && all[base..t1] == all[base..t0] + all[t0..t1];
    Associate(w, p, all[t0..t1]);
  }

  lemma HandedOut(before: seq<u8>, after: seq<u8>, out: seq<u8>)
    requires |out| <= |before| && after == Put(before, 0, out)
    ensures after[..|out|] == out
  {
  }

  /**
    Any number of calls, whatever the peer sends and however it arrives: what was
    handed out and the residue are what the reference reads of the bytes taken,
    and what was handed out is a beginning of what it reads of the whole stream.
    The calls stay inside the buffers exactly as long as the reference meets no
    header with a length above 4128.
  */
  method Listen(y: Endpoint, lens: seq<nat>) returns (got: seq<u8>, safe: bool)
    requires y.Shape() && y.inp.Valid() && Idle(y.RecvView())
    modifies y`recvPtPos, y`recvPtLen, y`hdrBytesRecvd, y`ctBytesRecvd, y.recvHdr, y.recvPt, y.recvCt, y.inp
    ensures y.inp.Valid() && old(y.inp.taken) <= y.inp.taken && old(y.inp.sent) <= y.inp.sent
    ensures var r := ReadAll(y.inp.sent[old(y.inp.taken)..y.inp.taken], y.symKey[..]);
            (safe <==> r.end != TooLong) && r.text == if safe then got + Residue(y.RecvView()) else got
    ensures got <= ReadAll(y.inp.sent[old(y.inp.taken)..], y.symKey[..]).text
  {
    hide ReadAll, Whole, First, Reads, Settled, HdrLen;
    got, safe := [], true;
    ghost var base, w, p: seq<u8>, key := y.inp.taken, [], [], y.symKey[..];
    Starts(y.RecvView(), key, y.bigEndian);
    var i := 0;
    while i < |lens|
      invariant 0 <= i <= |lens| && y.inp.Valid() && base <= y.inp.taken && old(y.inp.sent) <= y.inp.sent
      invariant y.inp.sent[base..y.inp.taken] == w + p && y.symKey[..] == key
      invariant Reads(y.RecvView(), w, p, got, key, y.bigEndian) && Ordered(y.RecvView(), y.bigEndian)
      invariant Settled(y.RecvView(), key, y.bigEndian)
    {
      var data;
      data, safe, w, p := Once(y, lens[i], base, w, p, got);
      if !safe {
        StopsThere(w, p, key);
        Beginning(y.inp.sent, base, y.inp.taken, key);
        return;
      }
      got := got + data;
      i := i + 1;
    }
    AllRead(y.RecvView(), w, p, got, key, y.bigEndian);
    Beginning(y.inp.sent, base, y.inp.taken, key);
  }

  lemma Starts(s: RecvState, key: Key, big: bool)
    requires Idle(s)
    ensures Ordered(s, big) && Reads(s, [], [], [], key, big) && Settled(s, key, big)
  {
    hide First, LoadU16;
    assert !Leads([], key);
  }

  lemma Beginning(s: seq<u8>, base: nat, n: nat, key: Key)
    requires base <= n <= |s|
    ensures ReadAll(s[base..n], key).text <= ReadAll(s[base..], key).text
  {
    hide ReadAll;
    assert s[base..] == s[base..n] + s[n..];
    MoreOnlyAdds(s[base..n], s[n..], key);
  }
}
