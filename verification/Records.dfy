/** The record format of netnacl: a two-byte length, a nonce and a box. */
module Records {
  import opened Bits
  import opened StreamSpec

  datatype Record = Record(nonce: seq<u8>, text: seq<u8>)

  type Frame = f: Record | |f.nonce| == 24 && |f.text| <= 4096
    witness Record(seq(24, i => 0), [])

  // ---------- the length field ----------

  type u16 = x: int | 0 <= x < 0x1_0000

  /** Two bytes of memory read as a `uint16_t` by a host of the given byte order. */
  function LoadU16(b0: u8, b1: u8, bigEndian: bool): (r: u16) {
    if bigEndian then b0 as int * 256 + b1 as int else b0 as int + b1 as int * 256
  }

  function StoreU16(v: u16, bigEndian: bool): (b: seq<u8>)
    ensures |b| == 2
  {
    if bigEndian then [v / 256, v % 256] else [v % 256, v / 256]
  }

  /** `htons` and `ntohs`: the same exchange of bytes, on little-endian hosts only. */
  function SwapToNet(v: u16, bigEndian: bool): (r: u16) {
    if bigEndian then v else v % 256 * 256 + v / 256
  }

  /** Whatever the two hosts are, one swap on each side carries the number over. */
  lemma LengthSurvives(v: u16, sender: bool, receiver: bool)
    ensures var b := StoreU16(SwapToNet(v, sender), sender);
            && b == [v / 256, v % 256]
            && SwapToNet(LoadU16(b[0], b[1], receiver), receiver) == v
  {
  }

  // ---------- frames ----------

  /** The length in network order, then the nonce. */
  function Header(f: Frame): (h: seq<u8>)
    ensures |h| == 26
  {
    [(32 + |f.text|) / 256, (32 + |f.text|) % 256] + f.nonce
  }

  function Sealed(f: Frame, key: Key): (b: seq<u8>)
    ensures |b| == 32 + |f.text|
  {
    Box(Zeros(32) + f.text, f.nonce, key)
  }

  function Encode(f: Frame, key: Key): (w: seq<u8>)
    ensures |w| == 58 + |f.text|
  {
    Header(f) + Sealed(f, key)
  }

  function EncodeAll(fs: seq<Frame>, key: Key): (r: seq<u8>) {
    if fs == [] then [] else Encode(fs[0], key) + EncodeAll(fs[1..], key)
  }

  function Texts(fs: seq<Frame>): (r: seq<u8>) {
    if fs == [] then [] else fs[0].text + Texts(fs[1..])
  }

  lemma EncodeAllFirst(fs: seq<Frame>, key: Key)
    requires fs != []
    ensures EncodeAll(fs, key) == Encode(fs[0], key) + EncodeAll(fs[1..], key)
  {
    hide Encode;
  }

  lemma TextsFirst(fs: seq<Frame>)
    requires fs != []
    ensures Texts(fs) == fs[0].text + Texts(fs[1..])
  {
  }

  lemma TextsNone()
    ensures Texts([]) == []
  {
  }

  lemma EncodeNone(key: Key)
    ensures EncodeAll([], key) == []
  {
  }

  lemma {:induction false} TextsConcat(fs: seq<Frame>, gs: seq<Frame>)
    ensures Texts(fs + gs) == Texts(fs) + Texts(gs)
  {
    hide Texts;
    if fs == [] {
      assert fs + gs == gs;
      assert Texts(fs) == [] by { TextsNone(); }
      assert [] + Texts(gs) == Texts(gs);
    } else {
      TextsFirst(fs);
      TextsFirst(fs + gs);
      TextsConcat(fs[1..], gs);
      assert (fs + gs)[1..] == fs[1..] + gs;
      Associate(fs[0].text, Texts(fs[1..]), Texts(gs));
    }
  }

  lemma {:induction false} EncodeAllConcat(fs: seq<Frame>, gs: seq<Frame>, key: Key)
    ensures EncodeAll(fs + gs, key) == EncodeAll(fs, key) + EncodeAll(gs, key)
  {
    hide Encode;
    if fs == [] {
      assert fs + gs == gs;
    } else {
      EncodeAllFirst(fs, key);
      EncodeAllFirst(fs + gs, key);
      hide EncodeAll;
      EncodeAllConcat(fs[1..], gs, key);
      assert (fs + gs)[1..] == fs[1..] + gs;
      Associate(Encode(fs[0], key), EncodeAll(fs[1..], key), EncodeAll(gs, key));
    }
  }

  lemma EncodeAllAppend(fs: seq<Frame>, f: Frame, key: Key)
    ensures EncodeAll(fs + [f], key) == EncodeAll(fs, key) + Encode(f, key)
  {
    hide EncodeAll, Encode;
    EncodeAllConcat(fs, [f], key);
    EncodeAllFirst([f], key);
    EncodeNone(key);
    assert [f][1..] == [];
    assert Encode(f, key) + [] == Encode(f, key);
  }

  /** What is left of the frames fs after the first pos bytes of the first one. */
  function Rest(fs: seq<Frame>, key: Key, pos: nat): (r: seq<u8>) {
    if fs == [] || pos > 58 + |fs[0].text| then []
    else Encode(fs[0], key)[pos..] + EncodeAll(fs[1..], key)
  }

  /** A piece taken from the wire inside a frame is the next piece of that frame. */
  lemma RestStep(fs: seq<Frame>, key: Key, pos: nat, n: nat, pending: seq<u8>, tail: seq<u8>)
    requires pending + tail == Rest(fs, key, pos) && 1 <= n <= |pending|
    requires fs != [] ==> pos + n <= 58 + |fs[0].text|
    ensures fs != []
    ensures pending[..n] == Encode(fs[0], key)[pos..pos + n]
    ensures pending[n..] + tail == Rest(fs, key, pos + n)
  {
    hide Encode, EncodeAll;
    var e, all := Encode(fs[0], key), EncodeAll(fs[1..], key);
    assert pending[..n] == (pending + tail)[..n];
    assert pending[n..] + tail == (pending + tail)[n..];
    assert e[pos..][..n] == e[pos..pos + n];
    assert (e[pos..] + all)[n..] == e[pos + n..] + all;
  }

  /** The end of a frame is the beginning of the next. */
  lemma RestNext(fs: seq<Frame>, key: Key)
    requires fs != []
    ensures Rest(fs, key, 58 + |fs[0].text|) == Rest(fs[1..], key, 0) == EncodeAll(fs[1..], key)
  {
    hide Encode;
    assert Encode(fs[0], key)[58 + |fs[0].text|..] == [];
    if fs[1..] != [] {
      assert Encode(fs[1], key)[0..] == Encode(fs[1], key);
    }
  }
}
