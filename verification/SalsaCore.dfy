/**
  `core` of tweetnacl.c. Its words are `unsigned long`, so they may be wider
  than 32 bits and carry anything in their high part; `wordBits` is their width.
*/
module SalsaCore {
  import opened Arith
  import opened Bits
  import opened Poly1305Spec
  import opened Salsa20Spec

  /** The low half of a word. */
  function Low(x: nat): (r: u32) {
    x % WORD
  }

  function LowAll(x: seq<nat>): (s: seq<u32>)
    ensures |s| == |x|
  {
    seq(|x|, i requires 0 <= i < |x| => Low(x[i]))
  }

  /** `x + y` in a word. */
  function AddWord(x: nat, y: nat, wordBits: nat): (r: nat) {
    (x + y) % Pow2(wordBits)
  }

  /** `x - y` in a word. */
  function SubWord(x: nat, y: nat, wordBits: nat): (r: nat) {
    (x - y) % Pow2(wordBits)
  }

  /** `(x << c) | ((x & 0xffffffff) >> (32 - c))` in a word. */
  function L32(x: nat, c: nat, wordBits: nat): (r: nat)
    requires 0 < c < 32
  {
    DivNat(Low(x), Pow2(32 - c));
    Or(x * Pow2(c) % Pow2(wordBits), Low(x) / Pow2(32 - c))
  }

  lemma WideMod(x: int, wordBits: nat)
    requires wordBits >= 32
    ensures x % Pow2(wordBits) % WORD == x % WORD
  {
    hide Pow2;
    WordSizes();
    Pow2Add(wordBits - 32, 32);
    ModOfMod(x, WORD, Pow2(wordBits - 32));
  }

  lemma ModSum(x: nat, y: nat)
    ensures (x + y) % WORD == Plus(Low(x), Low(y))
  {
  }

  lemma ModDifference(x: nat, y: nat, z: u32)
    requires Low(x) == Plus(z, Low(y))
    ensures (x - y) % WORD == z
  {
  }

  lemma AddLow(x: nat, y: nat, wordBits: nat)
    requires wordBits >= 32
    ensures Low(AddWord(x, y, wordBits)) == Plus(Low(x), Low(y))
  {
    hide Pow2;
    WideMod(x + y, wordBits);
    ModSum(x, y);
  }

  lemma SubLow(x: nat, y: nat, z: u32, wordBits: nat)
    requires wordBits >= 32
    requires Low(x) == Plus(z, Low(y))
    ensures Low(SubWord(x, y, wordBits)) == z
  {
    hide Pow2, Plus;
    WideMod(x - y, wordBits);
    ModDifference(x, y, z);
  }

  lemma XorLowWord(x: nat, y: nat)
    ensures Low(Xor(x, y)) == XorWord(Low(x), Low(y))
  {
    hide Pow2, Xor;
    WordSizes();
    XorLow(x, y, 32);
  }

  lemma ScaleMod(x: nat, p: nat, m: nat)
    requires p > 0 && m > 0
    ensures p * m > 0 && x * p % (p * m) == p * (x % m)
  {
    MulLower(p, m);
    var q, r := x / m, x % m;
    assert x == m * q + r;
    assert x * p == q * (p * m) + p * r by {
      MulDistr(p, m * q, r);
      MulAssoc(p, m, q);
    }
    MulBound(p, r, p, m - 1);
    MulDistr(p, m, -1);
    DivModUnique(x * p, p * m, q, p * r);
  }

  /** Whatever the high part holds, the low half of L32 is the 32-bit rotation. */
  lemma L32Low(x: nat, c: nat, wordBits: nat)
    requires 0 < c < 32 <= wordBits
    ensures Low(L32(x, c, wordBits)) == Rotl(Low(x), c)
  {
    hide Pow2, Or;
    var p, q, k := Pow2(c), Pow2(32 - c), Pow2(wordBits - 32);
    Shifted(x, c, wordBits);
    RotlRange(Low(x), c);
    OrDisjoint(x % (q * k), Low(x) / q, c);
    L32Sum(p * (x % (q * k)), Low(x) / q, Low(x) % q * p, p);
  }

  /** The shifted part is a multiple of 2^c, and modulo 2^32 only 32 - c bits of x count. */
  lemma Shifted(x: nat, c: nat, wordBits: nat)
    requires 0 < c < 32 <= wordBits
    ensures var p, q, k := Pow2(c), Pow2(32 - c), Pow2(wordBits - 32);
            && q * k > 0
            && x * p % Pow2(wordBits) == p * (x % (q * k))
            && p * (x % (q * k)) % WORD == Low(x) % q * p
  {
    hide Pow2, Or;
    var p, q, k := Pow2(c), Pow2(32 - c), Pow2(wordBits - 32);
    WordSizes();
    Pow2Add(c, 32 - c);
    Pow2Add(32, wordBits - 32);
    MulAssoc(p, q, k);
    MulLower(q, k);
    ScaleMod(x, p, q * k);
    ScaleMod(x % (q * k), p, q);
    assert k * q == q * k;
    ModOfMod(x, q, k);
    ModOfMod(x, q, p);
  }

  lemma L32Sum(high: nat, low: nat, r: nat, p: nat)
    requires high % WORD == r && r <= WORD - p && low < p
    ensures (high + low) % WORD == r + low
  {
  }

  method QuarterStep(t: array<nat>, wordBits: nat)
    requires t.Length == 4 && wordBits >= 32
    modifies t
    ensures LowAll(t[..]) == Quarter(Low(old(t[0])), Low(old(t[1])), Low(old(t[2])), Low(old(t[3])))
  {
    MixWord(t, 1, 0, 3, 7, wordBits);
    MixWord(t, 2, 1, 0, 9, wordBits);
    MixWord(t, 3, 2, 1, 13, wordBits);
    MixWord(t, 0, 3, 2, 18, wordBits);
  }

  /** `t[a] ^= L32(t[b] + t[c], r)` */
  method MixWord(t: array<nat>, a: nat, b: nat, c: nat, r: nat, wordBits: nat)
    requires t.Length == 4 && a < 4 && b < 4 && c < 4 && 0 < r < 32 <= wordBits
    modifies t
    ensures forall i :: 0 <= i < 4 && i != a ==> t[i] == old(t[i])
    ensures Low(t[a]) == XorWord(Low(old(t[a])), Rotl(Plus(Low(old(t[b])), Low(old(t[c]))), r))
  {
    var s := AddWord(t[b], t[c], wordBits);
    AddLow(t[b], t[c], wordBits);
    L32Low(s, r, wordBits);
    XorLowWord(t[a], L32(s, r, wordBits));
    t[a] := Xor(t[a], L32(s, r, wordBits));
  }

  /** The quarter round on column j, which starts on the diagonal. */
  function ColumnQuarter(x: State, j: nat): (z: seq<u32>)
    requires j < 4
    ensures |z| == 4
  {
    Quarter(x[5 * j % 16], x[(5 * j + 4) % 16], x[(5 * j + 8) % 16], x[(5 * j + 12) % 16])
  }

  /** Which word of column j's quarter round lands in word i of row j. */
  function Slot(i: nat, j: nat): (m: nat)
    requires j < 4 && 4 * j <= i < 4 * j + 4
    ensures m < 4
  {
    if i - 4 * j >= j then i - 5 * j else i - 5 * j + 4
  }

  /** The word that goes to place i of row j is the one the index (j + m) % 4 names. */
  lemma SlotOf(j: nat, m: nat)
    requires j < 4 && m < 4
    ensures (j + m) % 4 == if j + m < 4 then j + m else j + m - 4
    ensures forall i :: 4 * j <= i < 4 * j + 4 ==> (Slot(i, j) == m <==> i == 4 * j + (j + m) % 4)
  {
  }

  /** Row j of the transposed column round is column j's quarter round, turned by j words. */
  lemma TurnedWord(x: State, j: nat, i: nat)
    requires j < 4 && 4 * j <= i < 4 * j + 4
    ensures Transpose(ColumnRound(x))[i] == ColumnQuarter(x, j)[Slot(i, j)]
  {
    hide Quarter;
    assert j == 0 || j == 1 || j == 2 || j == 3;
    assert i - 4 * j == 0 || i - 4 * j == 1 || i - 4 * j == 2 || i - 4 * j == 3;
  }

  method Gather(t: array<nat>, x: array<nat>, j: nat)
    requires x.Length == 16 && t.Length == 4 && x != t && j < 4
    modifies t
    ensures t[0] == x[5 * j % 16] && t[1] == x[(5 * j + 4) % 16]
    ensures t[2] == x[(5 * j + 8) % 16] && t[3] == x[(5 * j + 12) % 16]
  {
    var m := 0;
    while m < 4
      invariant 0 <= m <= 4
      invariant x[..] == old(x[..])
      invariant m > 0 ==> t[0] == x[5 * j % 16]
      invariant m > 1 ==> t[1] == x[(5 * j + 4) % 16]
      invariant m > 2 ==> t[2] == x[(5 * j + 8) % 16]
      invariant m > 3 ==> t[3] == x[(5 * j + 12) % 16]
    {
      t[m] := x[(5 * j + 4 * m) % 16];
      m := m + 1;
    }
  }

  method Scatter(w: array<nat>, t: array<nat>, j: nat)
    requires w.Length == 16 && t.Length == 4 && w != t && j < 4
    modifies w
    ensures forall i :: 0 <= i < 4 * j || 4 * j + 4 <= i < 16 ==> w[i] == old(w[i])
    ensures forall i :: 4 * j <= i < 4 * j + 4 ==> w[i] == t[Slot(i, j)]
  {
    hide Slot;
    var m := 0;
    while m < 4
      invariant 0 <= m <= 4
      invariant t[..] == old(t[..])
      invariant forall i :: 0 <= i < 4 * j || 4 * j + 4 <= i < 16 ==> w[i] == old(w[i])
      invariant forall i :: 4 * j <= i < 4 * j + 4 && Slot(i, j) < m ==> w[i] == t[Slot(i, j)]
    {
      SlotOf(j, m);
      w[4 * j + (j + m) % 4] := t[m];
      m := m + 1;
    }
  }

  method TurnColumn(x: array<nat>, w: array<nat>, t: array<nat>, j: nat, wordBits: nat)
    requires x.Length == 16 && w.Length == 16 && t.Length == 4 && j < 4 && wordBits >= 32
    requires x != w && x != t && w != t
    modifies w, t
    ensures forall i :: 0 <= i < 4 * j || 4 * j + 4 <= i < 16 ==> w[i] == old(w[i])
    ensures forall i :: 4 * j <= i < 4 * j + 4 ==> Low(w[i]) == Transpose(ColumnRound(LowAll(x[..])))[i]
  {
    hide Quarter, ColumnRound, Transpose;
    ghost var s: State := LowAll(x[..]);
    Gather(t, x, j);
    assert x[..] == old(x[..]);
    QuarterStep(t, wordBits);
    assert LowAll(t[..]) == ColumnQuarter(s, j);
    Scatter(w, t, j);
    forall i | 4 * j <= i < 4 * j + 4
      ensures Low(w[i]) == Transpose(ColumnRound(s))[i]
    {
      TurnedWord(s, j, i);
      assert Low(t[Slot(i, j)]) == LowAll(t[..])[Slot(i, j)];
    }
  }

  method Turn(x: array<nat>, w: array<nat>, t: array<nat>, wordBits: nat)
    requires x.Length == 16 && w.Length == 16 && t.Length == 4 && wordBits >= 32
    requires x != w && x != t && w != t
    modifies x, w, t
    ensures LowAll(x[..]) == Transpose(ColumnRound(old(LowAll(x[..]))))
  {
    hide ColumnRound, Transpose;
    ghost var goal := Transpose(ColumnRound(LowAll(x[..])));
    var j := 0;
    while j < 4
      invariant 0 <= j <= 4
      invariant x[..] == old(x[..])
      invariant forall i :: 0 <= i < 4 * j ==> Low(w[i]) == goal[i]
    {
      TurnColumn(x, w, t, j, wordBits);
      j := j + 1;
    }
    var m := 0;
    while m < 16
      invariant 0 <= m <= 16
      invariant forall i :: 0 <= i < 16 ==> Low(w[i]) == goal[i]
      invariant forall i :: 0 <= i < m ==> x[i] == w[i]
    {
      x[m] := w[m];
      m := m + 1;
    }
    assert LowAll(x[..]) == goal;
  }

  method Ld32(b: array<u8>, pos: nat) returns (u: nat)
    requires pos + 4 <= b.Length
    ensures u == LittleEndian(b[pos..pos + 4])
  {
    WordSizes();
    u := b[pos + 3];
    OrDisjoint(u, b[pos + 2], 8);
    u := Or(0x100 * u, b[pos + 2]);
    OrDisjoint(u, b[pos + 1], 8);
    u := Or(0x100 * u, b[pos + 1]);
    OrDisjoint(u, b[pos], 8);
    u := Or(0x100 * u, b[pos]);
  }

  lemma LowBytes(u: nat)
    ensures LeBytes(u, 4) == LeBytes(Low(u), 4)
  {
    hide LeBytes;
    LeBytesLow(u, 4);
    assert Pow(256, 4) == WORD;
  }

  lemma {:induction false} LeBytesLow(u: nat, len: nat)
    ensures Pow(256, len) > 0
    ensures LeBytes(u % Pow(256, len), len) == LeBytes(u, len)
  {
    if len > 0 {
      LeBytesLow(u / 256, len - 1);
      LowDigit(u, Pow(256, len - 1));
    }
  }

  lemma LowDigit(u: nat, m: nat)
    requires m > 0
    ensures u % (256 * m) % 256 == u % 256
    ensures u % (256 * m) / 256 == u / 256 % m
  {
    var q, r := u / 256 / m, u / 256 % m;
    assert u / 256 == m * q + r;
    MulAssoc(256, m, q);
    assert u == q * (256 * m) + (u % 256 + 256 * r);
    DivModUnique(u, 256 * m, q, u % 256 + 256 * r);
  }

  /** Only the low 32 bits of a word reach the output. */
  method St32(out: array<u8>, pos: nat, word: nat)
    requires pos + 4 <= out.Length
    modifies out
    ensures out[pos..pos + 4] == LeBytes(Low(word), 4)
    ensures forall k :: 0 <= k < pos || pos + 4 <= k < out.Length ==> out[k] == old(out[k])
  {
    LowBytes(word);
    ghost var goal := LeBytes(Low(word), 4);
    hide Low;
    var i, u := 0, word;
    while i < 4
      invariant 0 <= i <= 4 && u >= 0
      invariant goal[i..] == LeBytes(u, 4 - i)
      invariant forall k :: 0 <= k < i ==> out[pos + k] == goal[k]
      invariant forall k :: 0 <= k < pos || pos + i <= k < out.Length ==> out[k] == old(out[k])
    {
      assert goal[i] == goal[i..][0] == u % 256;
      assert goal[i + 1..] == goal[i..][1..];
      out[pos + i] := u % 256;
      u := u / 256;
      i := i + 1;
    }
  }

  lemma BytesFirst(w: seq<u32>)
    requires w != []
    ensures Bytes(w) == LeBytes(w[0], 4) + Bytes(w[1..])
  {
    hide LeBytes;
  }

  lemma {:induction false} BytesAppend(w: seq<u32>, x: u32)
    ensures Bytes(w + [x]) == Bytes(w) + LeBytes(x, 4)
  {
    hide LeBytes;
    BytesFirst(w + [x]);
    if w == [] {
      assert (w + [x])[1..] == [];
    } else {
      BytesFirst(w);
      hide Bytes;
      BytesAppend(w[1..], x);
      assert (w + [x])[1..] == w[1..] + [x];
    }
  }

  lemma InputAt(n: seq<u8>, k: seq<u8>, c: seq<u8>, i: nat)
    requires |n| == 16 && |k| == 32 && |c| == 16 && i < 4
    ensures var s := Input(n, k, c);
            && s[5 * i] == LittleEndian(c[4 * i..4 * i + 4])
            && s[1 + i] == LittleEndian(k[4 * i..4 * i + 4])
            && s[6 + i] == LittleEndian(n[4 * i..4 * i + 4])
            && s[11 + i] == LittleEndian(k[16 + 4 * i..20 + 4 * i])
  {
    hide LittleEndian;
    assert i == 0 || i == 1 || i == 2 || i == 3;
  }

  method LoadInput(x: array<nat>, inp: array<u8>, pos: nat, k: array<u8>, c: array<u8>)
    requires x.Length == 16 && pos + 16 <= inp.Length && k.Length == 32 && c.Length == 16
    modifies x
    ensures x[..] == Input(inp[pos..pos + 16], k[..], c[..])
  {
    hide LittleEndian, Input;
    ghost var n := inp[pos..pos + 16];
    ghost var s := Input(n, k[..], c[..]);
    var i := 0;
    while i < 4
      invariant 0 <= i <= 4
      invariant forall j :: 0 <= j < i ==> x[5 * j] == s[5 * j]
      invariant forall j :: 1 <= j < 1 + i || 6 <= j < 6 + i || 11 <= j < 11 + i ==> x[j] == s[j]
    {
      InputAt(n, k[..], c[..], i);
      assert n[4 * i..4 * i + 4] == inp[pos + 4 * i..pos + 4 * i + 4];
      var u := Ld32(c, 4 * i);
      x[5 * i] := u;
      u := Ld32(k, 4 * i);
      x[1 + i] := u;
      u := Ld32(inp, pos + 4 * i);
      x[6 + i] := u;
      u := Ld32(k, 16 + 4 * i);
      x[11 + i] := u;
      i := i + 1;
    }
    assert x[5 * 0] == s[5 * 0] && x[5 * 1] == s[5 * 1] && x[5 * 2] == s[5 * 2] && x[5 * 3] == s[5 * 3];
  }

  /** The twenty rounds. */
  method Rounds(x: array<nat>, wordBits: nat)
    requires x.Length == 16 && wordBits >= 32
    modifies x
    ensures LowAll(x[..]) == DoubleRounds(old(LowAll(x[..])), 10)
  {
    hide ColumnRound, RowRound, Transpose;
    ghost var s: State := LowAll(x[..]);
    var w := new nat[16];
    var t := new nat[4];
    var i := 0;
    while i < 20
      invariant 0 <= i <= 20
      invariant LowAll(x[..]) == TurningRounds(s, i)
    {
      Turn(x, w, t, wordBits);
      i := i + 1;
    }
    TurningIsDouble(s, 10);
  }

  /** `st32` at the end of a run of words already stored. */
  method AppendWord(out: array<u8>, ghost from: nat, pos: nat, word: nat, ghost ws: seq<u32>)
    requires pos + 4 <= out.Length && pos == from + 4 * |ws| && out[from..pos] == Bytes(ws)
    modifies out
    ensures out[from..pos + 4] == Bytes(ws + [Low(word)])
    ensures forall k :: 0 <= k < pos || pos + 4 <= k < out.Length ==> out[k] == old(out[k])
  {
    hide Low, Bytes, LeBytes;
    St32(out, pos, word);
    BytesAppend(ws, Low(word));
    assert out[from..pos] == old(out[from..pos]);
    assert out[from..pos + 4] == out[from..pos] + out[pos..pos + 4];
  }

  /** `core` with h == 0: a Salsa20 block. */
  method CryptoCoreSalsa20(out: array<u8>, inp: array<u8>, pos: nat, k: array<u8>, c: array<u8>, wordBits: nat)
    requires out.Length == 64 && pos + 16 <= inp.Length && k.Length == 32 && c.Length == 16
    requires out != inp && out != k && out != c && wordBits >= 32
    modifies out
    ensures out[..] == Salsa20(inp[pos..pos + 16], k[..], c[..])
  {
    hide Input, DoubleRounds, LittleEndian;
    var x := new nat[16];
    LoadInput(x, inp, pos, k, c);
    ghost var s := Input(inp[pos..pos + 16], k[..], c[..]);
    var y := new nat[16];
    CopyWords(y, x);
    assert LowAll(x[..]) == s;
    Rounds(x, wordBits);
    ghost var z: State := LowAll(x[..]);
    ghost var sum := seq(16, i requires 0 <= i < 16 => Plus(z[i], s[i]));
    var i := 0;
    while i < 16
      invariant 0 <= i <= 16
      invariant LowAll(x[..]) == z && y[..] == s
      invariant out[0..4 * i] == Bytes(sum[..i])
    {
      var u := AddWord(x[i], y[i], wordBits);
      AddLow(x[i], y[i], wordBits);
      assert Low(x[i]) == LowAll(x[..])[i] && y[i] == y[..][i];
      assert sum[..i + 1] == sum[..i] + [sum[i]];
      AppendWord(out, 0, 4 * i, u, sum[..i]);
      i := i + 1;
    }
    assert sum[..16] == sum && out[0..64] == out[..];
  }

  /** `core` with h == 1: the feed-forward is added and the public words are taken out again. */
  method CryptoCoreHSalsa20(out: array<u8>, inp: array<u8>, pos: nat, k: array<u8>, c: array<u8>, wordBits: nat)
    requires out.Length == 32 && pos + 16 <= inp.Length && k.Length == 32 && c.Length == 16
    requires out != inp && out != k && out != c && wordBits >= 32
    modifies out
    ensures out[..] == HSalsa20(inp[pos..pos + 16], k[..], c[..])
  {
    hide Input, DoubleRounds, LittleEndian, Bytes;
    var x := new nat[16];
    LoadInput(x, inp, pos, k, c);
    ghost var s := Input(inp[pos..pos + 16], k[..], c[..]);
    var y := new nat[16];
    CopyWords(y, x);
    assert LowAll(x[..]) == s;
    Rounds(x, wordBits);
    ghost var z: State := LowAll(x[..]);
    FeedForward(x, y, wordBits, z, s);
    TakeOut(x, inp, pos, k, c, wordBits, z);
    StoreDiagonal(out, x, z);
  }

  method FeedForward(x: array<nat>, y: array<nat>, wordBits: nat, ghost z: State, ghost s: State)
    requires x.Length == 16 && y.Length == 16 && x != y && wordBits >= 32
    requires LowAll(x[..]) == z && y[..] == s
    modifies x
    ensures forall i :: 0 <= i < 16 ==> Low(x[i]) == Plus(z[i], s[i])
  {
    hide Low, Plus, AddWord;
    var i := 0;
    while i < 16
      invariant 0 <= i <= 16
      invariant y[..] == s
      invariant forall k :: 0 <= k < i ==> Low(x[k]) == Plus(z[k], s[k])
      invariant forall k :: i <= k < 16 ==> x[k] == old(x[k])
    {
      AddLow(x[i], y[i], wordBits);
      assert Low(x[i]) == old(LowAll(x[..]))[i] && y[i] == y[..][i];
      LowOfWord(y[i]);
      x[i] := AddWord(x[i], y[i], wordBits);
      i := i + 1;
    }
  }

  /** The first i of the words 0, 5, 10, 15 and of the words 6, 7, 8, 9. */
  predicate InCorner(m: nat, i: nat) {
    (m % 5 == 0 && m < 5 * i) || 6 <= m < 6 + i
  }

  method TakeOut(x: array<nat>, inp: array<u8>, pos: nat, k: array<u8>, c: array<u8>, wordBits: nat, ghost z: State)
    requires x.Length == 16 && pos + 16 <= inp.Length && k.Length == 32 && c.Length == 16 && wordBits >= 32
    requires var s := Input(inp[pos..pos + 16], k[..], c[..]);
             forall i :: 0 <= i < 16 ==> Low(x[i]) == Plus(z[i], s[i])
    modifies x
    ensures forall m :: 0 <= m < 16 && InCorner(m, 4) ==> Low(x[m]) == z[m]
  {
    hide LittleEndian, Input, Low, Plus;
    ghost var n := inp[pos..pos + 16];
    ghost var s := Input(n, k[..], c[..]);
    var i := 0;
    while i < 4
      invariant 0 <= i <= 4
      invariant forall m :: 0 <= m < 16 && InCorner(m, i) ==> Low(x[m]) == z[m]
      invariant forall m :: 0 <= m < 16 && !InCorner(m, i) ==> x[m] == old(x[m])
    {
      InputAt(n, k[..], c[..], i);
      assert n[4 * i..4 * i + 4] == inp[pos + 4 * i..pos + 4 * i + 4];
      var u := Ld32(c, 4 * i);
      LowOfWord(u);
      SubLow(x[5 * i], u, z[5 * i], wordBits);
      x[5 * i] := SubWord(x[5 * i], u, wordBits);
      u := Ld32(inp, pos + 4 * i);
      LowOfWord(u);
      SubLow(x[6 + i], u, z[6 + i], wordBits);
      x[6 + i] := SubWord(x[6 + i], u, wordBits);
      i := i + 1;
    }
  }

  lemma LowOfWord(u: nat)
    requires u < WORD
    ensures Low(u) == u
  {
  }

  method StoreDiagonal(out: array<u8>, x: array<nat>, ghost z: State)
    requires out.Length == 32 && x.Length == 16
    requires forall m :: 0 <= m < 16 && InCorner(m, 4) ==> Low(x[m]) == z[m]
    modifies out
    ensures out[..] == Bytes([z[0], z[5], z[10], z[15], z[6], z[7], z[8], z[9]])
  {
    hide Low, Bytes, LeBytes;
    ghost var diag, rest := [z[0], z[5], z[10], z[15]], [z[6], z[7], z[8], z[9]];
    BytesEmpty();
    var i := 0;
    while i < 4
      invariant 0 <= i <= 4
      invariant out[0..4 * i] == Bytes(diag[..i])
      invariant out[16..16 + 4 * i] == Bytes(rest[..i])
    {
      assert diag[i] == z[5 * i] && rest[i] == z[6 + i];
      assert Low(x[5 * i]) == diag[i] && Low(x[6 + i]) == rest[i];
      assert diag[..i + 1] == diag[..i] + [diag[i]] && rest[..i + 1] == rest[..i] + [rest[i]];
      ghost var b2 := out[16..16 + 4 * i];
      AppendWord(out, 0, 4 * i, x[5 * i], diag[..i]);
      assert out[16..16 + 4 * i] == b2;
      ghost var b1 := out[0..4 * (i + 1)];
      AppendWord(out, 16, 16 + 4 * i, x[6 + i], rest[..i]);
      assert out[0..4 * (i + 1)] == b1;
      i := i + 1;
    }
    assert diag[..4] == diag && rest[..4] == rest;
    BytesConcat(diag, rest);
    assert diag + rest == [z[0], z[5], z[10], z[15], z[6], z[7], z[8], z[9]];
    assert out[..] == out[0..16] + out[16..32];
  }

  lemma BytesEmpty()
    ensures Bytes([]) == []
  {
  }

  lemma {:induction false} BytesConcat(v: seq<u32>, w: seq<u32>)
    ensures Bytes(v + w) == Bytes(v) + Bytes(w)
  {
    hide LeBytes;
    if v == [] {
      assert v + w == w;
    } else {
      BytesConcat(v[1..], w);
      assert (v + w)[1..] == v[1..] + w;
    }
  }

  method CopyWords(y: array<nat>, x: array<nat>)
    requires x.Length == 16 && y.Length == 16 && x != y
    modifies y
    ensures y[..] == x[..]
  {
    var i := 0;
    while i < 16
      invariant 0 <= i <= 16
      invariant x[..] == old(x[..])
      invariant forall k :: 0 <= k < i ==> y[k] == x[k]
    {
      y[i] := x[i];
      i := i + 1;
    }
  }
}
