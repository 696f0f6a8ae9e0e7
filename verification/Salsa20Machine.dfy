/**
  Salsa20 on the machine's 32-bit words: for numbers that are written down, `x + y`, `x ^ y` and the rotations of
  machine words can be worked out by the verifier, and they stand for the specification's operations.
*/
module Salsa20Machine {
  import opened Arith
  import opened Bits
  import opened Limbs
  import opened Poly1305Spec
  import opened Salsa20Spec

  // ---------- words ----------

  /** The bytes of a machine word. */
  function B0(x: bv32): (b: bv8) { (x & 0xff) as bv8 }
  function B1(x: bv32): (b: bv8) { ((x >> 8) & 0xff) as bv8 }
  function B2(x: bv32): (b: bv8) { ((x >> 16) & 0xff) as bv8 }
  function B3(x: bv32): (b: bv8) { (x >> 24) as bv8 }

  /** The number that a machine word stands for. */
  function Value(x: bv32): (r: u32) { Word(B3(x), B2(x), B1(x), B0(x)) }

  // ---------- exclusive or ----------

  lemma {:induction false} XorSplit(a: nat, u: nat, b: nat, v: nat, k: nat)
    requires a < Pow2(k) && b < Pow2(k)
    ensures Xor(a + Pow2(k) * u, b + Pow2(k) * v) == Xor(a, b) + Pow2(k) * Xor(u, v)
  {
    hide Xor;
    if k == 0 {
      assert Pow2(0) == 1;
      XorZero(0);
    } else {
      assert Pow2(k) == 2 * Pow2(k - 1);
      hide Pow2;
      var p := Pow2(k - 1);
      var x, y := a + 2 * p * u, b + 2 * p * v;
      XorSplit(a / 2, u, b / 2, v, k - 1);
      HalfSum(a, p, u);
      HalfSum(b, p, v);
      XorHalves(x, y);
      XorHalves(a, b);
      assert 2 * (p * Xor(u, v)) == 2 * p * Xor(u, v);
    }
  }

  lemma HalfSum(a: nat, p: nat, u: nat)
    ensures (a + 2 * p * u) / 2 == a / 2 + p * u && (a + 2 * p * u) % 2 == a % 2
  {
    assert 2 * p * u == 2 * (p * u);
  }

  lemma XorHalves(x: nat, y: nat)
    ensures Xor(x, y) == (x % 2 + y % 2) % 2 + 2 * Xor(x / 2, y / 2)
  {
  }

  function Num(x: bv8): (r: nat)
    ensures r < 256
  {
    x as int
  }

  /** On bytes, exclusive or is the machine's. */
  lemma {:induction false} XorByteIs(x: bv8, y: bv8)
    ensures Xor(Num(x), Num(y)) == Num(x ^ y)
    decreases Num(x) + Num(y)
  {
    hide Xor, Num;
    if x == 0 && y == 0 {
      NoBits();
    } else {
      ByteBits(x, y);
      XorByteIs(x >> 1, y >> 1);
      XorHalves(Num(x), Num(y));
    }
  }

  lemma NoBits()
    ensures Xor(Num(0), Num(0)) == Num(0 ^ 0)
  {
    XorZero(0);
  }

  lemma HalfByte(x: bv8)
    ensures Num(x >> 1) == Num(x) / 2 && Num(x & 1) == Num(x) % 2
  {
  }

  lemma ByteBits(x: bv8, y: bv8)
    ensures Num(x >> 1) == Num(x) / 2 && Num(y >> 1) == Num(y) / 2
    ensures Num(x ^ y) == (Num(x) % 2 + Num(y) % 2) % 2 + 2 * Num((x >> 1) ^ (y >> 1))
    ensures x != 0 || y != 0 ==> Num(x >> 1) + Num(y >> 1) < Num(x) + Num(y)
  {
    hide Num;
    HalfByte(x);
    HalfByte(y);
    HalfByte(x ^ y);
    BytesApart(x, y);
    OneBits(x & 1, y & 1);
    NotNothing(x);
    NotNothing(y);
  }

  lemma NotNothing(x: bv8)
    ensures x != 0 ==> Num(x) > 0
  {
  }

  lemma BytesApart(x: bv8, y: bv8)
    ensures (x ^ y) >> 1 == (x >> 1) ^ (y >> 1) && (x ^ y) & 1 == (x & 1) ^ (y & 1) && x & 1 <= 1 && y & 1 <= 1
  {
  }

  lemma OneBits(a: bv8, b: bv8)
    requires a <= 1 && b <= 1
    ensures Num(a ^ b) == (Num(a) + Num(b)) % 2
  {
    assert a == 0 || a == 1;
    assert b == 0 || b == 1;
  }

  /** A word from its bytes, the highest first. */
  function Word(a: bv8, b: bv8, c: bv8, d: bv8): (r: u32) {
    Join(Num(a), Num(b), Num(c), Num(d))
  }

  function Join(a: u8, b: u8, c: u8, d: u8): (r: u32) {
    d as int + 0x100 * (c as int + 0x100 * (b as int + 0x100 * a as int))
  }

  lemma XorTop(d: nat, u: nat, s: nat, v: nat)
    requires d < 256 && s < 256
    ensures Xor(d + 0x100 * u, s + 0x100 * v) == Xor(d, s) + 0x100 * Xor(u, v)
  {
    hide Xor, Pow2;
    WordSizes();
    XorSplit(d, u, s, v, 8);
  }

  lemma XorWordIs(a: bv8, b: bv8, c: bv8, d: bv8, p: bv8, q: bv8, r: bv8, s: bv8)
    ensures XorWord(Word(a, b, c, d), Word(p, q, r, s)) == Word(a ^ p, b ^ q, c ^ r, d ^ s)
  {
    hide Xor, Num;
    XorByteIs(a, p);
    XorByteIs(b, q);
    XorByteIs(c, r);
    XorByteIs(d, s);
    var u1, v1 := Num(b) + 0x100 * Num(a), Num(q) + 0x100 * Num(p);
    var u2, v2 := Num(c) + 0x100 * u1, Num(r) + 0x100 * v1;
    XorTop(Num(b), Num(a), Num(q), Num(p));
    XorTop(Num(c), u1, Num(r), v1);
    XorTop(Num(d), u2, Num(s), v2);
    PlainXor(Word(a, b, c, d), Word(p, q, r, s));
  }

  lemma PlainXor(x: u32, y: u32)
    ensures XorWord(x, y) == Xor(x, y)
  {
    hide Xor;
  }

  function Xored(x: bv32, y: bv32): (r: bv32) { x ^ y }

  lemma MachineXor(x: bv32, y: bv32)
    ensures Value(Xored(x, y)) == XorWord(Value(x), Value(y))
  {
    hide Word, XorWord;
    XorWordIs(B3(x), B2(x), B1(x), B0(x), B3(y), B2(y), B1(y), B0(y));
    XorBytes(x, y);
  }

  lemma XorBytes(x: bv32, y: bv32)
    ensures B3(x ^ y) == B3(x) ^ B3(y) && B2(x ^ y) == B2(x) ^ B2(y)
    ensures B1(x ^ y) == B1(x) ^ B1(y) && B0(x ^ y) == B0(x) ^ B0(y)
  {
  }

  // ---------- sums of bytes, from their halves ----------

  lemma HalfByteSum(a: bv8, b: bv8, c: bv8)
    requires a < 0x10 && b < 0x10 && c <= 1
    ensures Num(a + b + c) == Num(a) + Num(b) + Num(c) && a + b + c < 0x20
  {
  }

  lemma HalfBytes(a: bv8)
    ensures Num(a) == Num(a & 0xf) + 0x10 * Num(a >> 4) && a & 0xf < 0x10 && a >> 4 < 0x10
    ensures a < 0x20 ==> a >> 4 <= 1
  {
  }

  lemma HalvesJoin(l: bv8, h: bv8)
    ensures Num((h << 4) | (l & 0xf)) == Num(l & 0xf) + 0x10 * Num(h & 0xf)
  {
  }

  /** The sum of two bytes given by their halves and of a carry, and what it carries. */
  function Joined(a: bv8, u: bv8, b: bv8, v: bv8, c: bv8): (r: bv8) {
    ((u + v + ((a + b + c) >> 4)) << 4) | ((a + b + c) & 0xf)
  }

  function Over(a: bv8, u: bv8, b: bv8, v: bv8, c: bv8): (r: bv8) {
    (u + v + ((a + b + c) >> 4)) >> 4
  }

  function Add(a: bv8, b: bv8, c: bv8): (r: bv8) {
    Joined(a & 0xf, a >> 4, b & 0xf, b >> 4, c)
  }

  function Carry(a: bv8, b: bv8, c: bv8): (r: bv8) {
    Over(a & 0xf, a >> 4, b & 0xf, b >> 4, c)
  }

  lemma AddLow(a: bv8, b: bv8, c: bv8)
    requires a < 0x10 && b < 0x10 && c <= 1
    ensures var l := a + b + c;
            l < 0x20 && l >> 4 <= 1 && Num(l & 0xf) + 0x10 * Num(l >> 4) == Num(a) + Num(b) + Num(c)
  {
    hide *;
    HalfByteSum(a, b, c);
    LowPart(a + b + c, Num(a) + Num(b) + Num(c));
  }

  lemma LowPart(l: bv8, n: nat)
    requires l < 0x20 && Num(l) == n
    ensures l >> 4 <= 1 && Num(l & 0xf) + 0x10 * Num(l >> 4) == n
  {
    hide *;
    HalfBytes(l);
  }

  lemma AddHigh(u: bv8, v: bv8, c: bv8, l: bv8, n: nat)
    requires u < 0x10 && v < 0x10 && c <= 1 && Num(l & 0xf) + 0x10 * Num(c) == n
    ensures var h := u + v + c;
            && h >> 4 <= 1
            && Num((h << 4) | (l & 0xf)) + 0x100 * Num(h >> 4) == 0x10 * Num(u) + 0x10 * Num(v) + n
  {
    hide *;
    AddLow(u, v, c);
    HalvesJoin(l, u + v + c);
  }

  lemma AddHalves(a: bv8, u: bv8, b: bv8, v: bv8, c: bv8)
    requires a < 0x10 && u < 0x10 && b < 0x10 && v < 0x10 && c <= 1
    ensures Over(a, u, b, v, c) <= 1
    ensures Num(Joined(a, u, b, v, c)) + 0x100 * Num(Over(a, u, b, v, c))
         == Num(a) + 0x10 * Num(u) + Num(b) + 0x10 * Num(v) + Num(c)
  {
    hide Num;
    var l := a + b + c;
    AddLow(a, b, c);
    AddHigh(u, v, l >> 4, l, Num(a) + Num(b) + Num(c));
  }

  lemma AddByte(a: bv8, b: bv8, c: bv8)
    requires c <= 1
    ensures Carry(a, b, c) <= 1
    ensures Num(Add(a, b, c)) + 0x100 * Num(Carry(a, b, c)) == Num(a) + Num(b) + Num(c)
  {
    hide Joined, Num, Over;
    HalfBytes(a);
    HalfBytes(b);
    AddHalves(a & 0xf, a >> 4, b & 0xf, b >> 4, c);
  }

  // ---------- sums of words ----------

  function Three(a: bv32, b: bv32, c: bv32): (r: bv32) { a + b + c }

  /** The sums of the bytes of two words, each with what the one below carries. */
  function S0(x: bv32, y: bv32): (r: bv32) { Three(x & 0xff, y & 0xff, 0) }
  function S1(x: bv32, y: bv32): (r: bv32) { Three((x >> 8) & 0xff, (y >> 8) & 0xff, S0(x, y) >> 8) }
  function S2(x: bv32, y: bv32): (r: bv32) { Three((x >> 16) & 0xff, (y >> 16) & 0xff, S1(x, y) >> 8) }
  function S3(x: bv32, y: bv32): (r: bv32) { Three(x >> 24, y >> 24, S2(x, y) >> 8) }

  function Glued(a: bv32, b: bv32, c: bv32, d: bv32): (r: bv32) {
    (a << 24) | ((b & 0xff) << 16) | ((c & 0xff) << 8) | (d & 0xff)
  }

  lemma ByteSums(x: bv32, y: bv32)
    ensures var s0 := (x & 0xff) + (y & 0xff) + 0;
            var s1 := ((x >> 8) & 0xff) + ((y >> 8) & 0xff) + (s0 >> 8);
            var s2 := ((x >> 16) & 0xff) + ((y >> 16) & 0xff) + (s1 >> 8);
            var s3 := (x >> 24) + (y >> 24) + (s2 >> 8);
            x + y == (s3 << 24) | ((s2 & 0xff) << 16) | ((s1 & 0xff) << 8) | (s0 & 0xff)
  {
    hide *;
  }

  lemma GluedIs(x: bv32, y: bv32)
    ensures var s0 := (x & 0xff) + (y & 0xff) + 0;
            var s1 := ((x >> 8) & 0xff) + ((y >> 8) & 0xff) + (s0 >> 8);
            var s2 := ((x >> 16) & 0xff) + ((y >> 16) & 0xff) + (s1 >> 8);
            var s3 := (x >> 24) + (y >> 24) + (s2 >> 8);
            Glued(S3(x, y), S2(x, y), S1(x, y), S0(x, y))
            == (s3 << 24) | ((s2 & 0xff) << 16) | ((s1 & 0xff) << 8) | (s0 & 0xff)
  {
  }

  lemma SumIs(x: bv32, y: bv32)
    ensures Glued(S3(x, y), S2(x, y), S1(x, y), S0(x, y)) == x + y
  {
    hide *;
    ByteSums(x, y);
    GluedIs(x, y);
  }

  lemma GluedBytes(a: bv32, b: bv32, c: bv32, d: bv32)
    ensures B0(Glued(a, b, c, d)) == Down(d) && B1(Glued(a, b, c, d)) == Down(c)
    ensures B2(Glued(a, b, c, d)) == Down(b) && B3(Glued(a, b, c, d)) == Down(a)
  {
  }

  function Down(s: bv32): (r: bv8) { (s & 0xff) as bv8 }
  function Up(s: bv32): (r: bv8) { ((s >> 8) & 0xff) as bv8 }

  lemma UpIs(s: bv32)
    requires s < 0x200
    ensures Up(s) as bv32 == s >> 8
  {
  }

  lemma Apart(x: bv32)
    ensures B0(x) as bv32 == x & 0xff && B1(x) as bv32 == (x >> 8) & 0xff
    ensures B2(x) as bv32 == (x >> 16) & 0xff && B3(x) as bv32 == x >> 24
  {
  }

  lemma SumLimits(x: bv32, y: bv32)
    ensures S0(x, y) < 0x200 && S1(x, y) < 0x200 && S2(x, y) < 0x200 && S3(x, y) < 0x200
  {
    hide Three;
    ThreeLimit(x & 0xff, y & 0xff, 0);
    ThreeLimit((x >> 8) & 0xff, (y >> 8) & 0xff, S0(x, y) >> 8);
    ThreeLimit((x >> 16) & 0xff, (y >> 16) & 0xff, S1(x, y) >> 8);
    ThreeLimit(x >> 24, y >> 24, S2(x, y) >> 8);
  }

  lemma ThreeLimit(a: bv32, b: bv32, c: bv32)
    requires a <= 0xff && b <= 0xff && c <= 1
    ensures Three(a, b, c) < 0x200
  {
  }

  function Full(a: bv8, b: bv8, c: bv8): (r: bv32) { Three(a as bv32, b as bv32, c as bv32) }

  lemma SumSteps(x: bv32, y: bv32)
    ensures S0(x, y) == Full(B0(x), B0(y), 0)
    ensures S1(x, y) == Full(B1(x), B1(y), Up(S0(x, y)))
    ensures S2(x, y) == Full(B2(x), B2(y), Up(S1(x, y)))
    ensures S3(x, y) == Full(B3(x), B3(y), Up(S2(x, y)))
  {
    hide B0, B1, B2, B3, Three, Up;
    SumLimits(x, y);
    UpIs(S0(x, y));
    UpIs(S1(x, y));
    UpIs(S2(x, y));
    Apart(x);
    Apart(y);
  }

  lemma SumBytes(x: bv32, y: bv32)
    ensures B0(x + y) == Down(S0(x, y)) && B1(x + y) == Down(S1(x, y))
    ensures B2(x + y) == Down(S2(x, y)) && B3(x + y) == Down(S3(x, y))
  {
    hide *;
    SumIs(x, y);
    GluedBytes(S3(x, y), S2(x, y), S1(x, y), S0(x, y));
  }

  lemma ByteSum(a: bv8, b: bv8, c: bv8)
    requires c <= 1
    ensures Up(Full(a, b, c)) <= 1
    ensures Num(Down(Full(a, b, c))) + 0x100 * Num(Up(Full(a, b, c))) == Num(a) + Num(b) + Num(c)
  {
    hide *;
    AddByte(a, b, c);
    DownUp(a, b, c);
  }

  lemma DownUp(a: bv8, b: bv8, c: bv8)
    requires c <= 1
    ensures Down(Full(a, b, c)) == Add(a, b, c) && Up(Full(a, b, c)) == Carry(a, b, c)
  {
  }

  lemma HalfSums(a: bv8, b: bv8, x: bv8, y: bv8, c: bv8)
    requires c <= 1
    ensures var s := Full(b, y, c);
            var t := Full(a, x, Up(s));
            Up(t) <= 1 && Half(Down(t), Down(s)) + 0x1_0000 * Num(Up(t)) == Half(a, b) + Half(x, y) + Num(c)
  {
    hide Down, Full, Num, Up;
    ByteSum(b, y, c);
    ByteSum(a, x, Up(Full(b, y, c)));
  }

  function Half(a: bv8, b: bv8): (r: nat)
    ensures r < 0x1_0000
  {
    Num(b) + 0x100 * Num(a)
  }

  lemma WordHalves(a: bv8, b: bv8, c: bv8, d: bv8)
    ensures Word(a, b, c, d) == Half(c, d) + 0x1_0000 * Half(a, b)
  {
    hide Num;
  }

  function Added(x: bv32, y: bv32): (r: bv32) { x + y }

  lemma MachinePlus(x: bv32, y: bv32)
    ensures Value(Added(x, y)) == Plus(Value(x), Value(y))
  {
    hide B0, B1, B2, B3, Down, Full, Half, Num, Plus, S0, S1, S2, S3, Up, Word;
    SumBytes(x, y);
    SumSteps(x, y);
    NoCarry();
    HalfSums(B1(x), B0(x), B1(y), B0(y), 0);
    HalfSums(B3(x), B2(x), B3(y), B2(y), Up(S1(x, y)));
    WordHalves(B3(x), B2(x), B1(x), B0(x));
    WordHalves(B3(y), B2(y), B1(y), B0(y));
    WordHalves(B3(x + y), B2(x + y), B1(x + y), B0(x + y));
    AddHalfWords(Half(B1(x), B0(x)), Half(B3(x), B2(x)), Half(B1(y), B0(y)), Half(B3(y), B2(y)),
              Half(B1(x + y), B0(x + y)), Half(B3(x + y), B2(x + y)), Num(Up(S1(x, y))), Num(Up(S3(x, y))));
  }

  lemma NoCarry()
    ensures Num(0) == 0
  {
  }

  lemma AddHalfWords(a: nat, b: nat, x: nat, y: nat, r: nat, s: nat, c: nat, d: nat)
    requires r + 0x1_0000 * c == a + x && s + 0x1_0000 * d == b + y + c && r < 0x1_0000 && s < 0x1_0000
    requires a < 0x1_0000 && b < 0x1_0000 && x < 0x1_0000 && y < 0x1_0000
    ensures r + 0x1_0000 * s == Plus(a + 0x1_0000 * b, x + 0x1_0000 * y)
  {
    DivModUnique(a + 0x1_0000 * b + x + 0x1_0000 * y, WORD, d, r + 0x1_0000 * s);
  }

  // ---------- rotations ----------

  /** A byte of a turned word: the low bits of one byte above the high bits of the next. */
  function Mid(x: nat, y: nat, p: nat, q: nat): (r: nat)
    requires q > 0
  {
    x % q * p + y / q
  }

  lemma ShiftLeft(a: bv8)
    ensures Num(a << 1) == Num(a) % 0x80 * 2
    ensures Num(a << 2) == Num(a) % 0x40 * 4
  {
  }

  lemma ShiftLeft5(a: bv8)
    ensures Num(a << 5) == Num(a) % 8 * 0x20
  {
  }

  lemma ShiftLeft7(a: bv8)
    ensures Num(a << 7) == Num(a) % 2 * 0x80
  {
  }

  lemma ShiftRight(a: bv8)
    ensures Num(a >> 1) == Num(a) / 2
    ensures Num(a >> 3) == Num(a) / 8
    ensures Num(a >> 6) == Num(a) / 0x40
    ensures Num(a >> 7) == Num(a) / 0x80
  {
  }

  lemma ShiftsJoin(a: bv8, b: bv8)
    ensures Num((a << 7) | (b >> 1)) == Num(a << 7) + Num(b >> 1)
    ensures Num((a << 1) | (b >> 7)) == Num(a << 1) + Num(b >> 7)
    ensures Num((a << 5) | (b >> 3)) == Num(a << 5) + Num(b >> 3)
    ensures Num((a << 2) | (b >> 6)) == Num(a << 2) + Num(b >> 6)
  {
  }

  function Rotl7(x: bv32): (r: bv32) { (x << 7) | (x >> 25) }
  function Pair7(a: bv8, b: bv8): (r: bv8) { (a << 7) | (b >> 1) }

  lemma Bytes7(x: bv32)
    ensures B3(Rotl7(x)) == Pair7(B3(x), B2(x)) && B2(Rotl7(x)) == Pair7(B2(x), B1(x))
    ensures B1(Rotl7(x)) == Pair7(B1(x), B0(x)) && B0(Rotl7(x)) == Pair7(B0(x), B3(x))
  {
  }

  lemma NumPair7(a: bv8, b: bv8)
    ensures Num(Pair7(a, b)) == Mid(Num(a), Num(b), 0x80, 2)
  {
    hide Num;
    ShiftLeft7(a);
    ShiftRight(b);
    ShiftsJoin(a, b);
  }

  lemma Turn7(a: u8, b: u8, c: u8, d: u8)
    ensures Join(Mid(a, b, 0x80, 2), Mid(b, c, 0x80, 2), Mid(c, d, 0x80, 2), Mid(d, a, 0x80, 2))
         == Rotl(Join(a, b, c, d), 7)
  {
    RotlIs(Join(a, b, c, d));
    DivModUnique(Join(a, b, c, d), 0x200_0000, a / 2, Join(a % 2, b, c, d));
  }

  lemma MachineRotl7(x: bv32)
    ensures Value(Rotl7(x)) == Rotl(Value(x), 7)
  {
    hide B0, B1, B2, B3, Join, Mid, Num, Pair7, Rotl, Rotl7;
    Bytes7(x);
    NumPair7(B3(x), B2(x));
    NumPair7(B2(x), B1(x));
    NumPair7(B1(x), B0(x));
    NumPair7(B0(x), B3(x));
    Turn7(Num(B3(x)), Num(B2(x)), Num(B1(x)), Num(B0(x)));
  }

  function Rotl9(x: bv32): (r: bv32) { (x << 9) | (x >> 23) }
  function Pair9(a: bv8, b: bv8): (r: bv8) { (a << 1) | (b >> 7) }

  lemma Bytes9(x: bv32)
    ensures B3(Rotl9(x)) == Pair9(B2(x), B1(x)) && B2(Rotl9(x)) == Pair9(B1(x), B0(x))
    ensures B1(Rotl9(x)) == Pair9(B0(x), B3(x)) && B0(Rotl9(x)) == Pair9(B3(x), B2(x))
  {
  }

  lemma NumPair9(a: bv8, b: bv8)
    ensures Num(Pair9(a, b)) == Mid(Num(a), Num(b), 2, 0x80)
  {
    hide Num;
    ShiftLeft(a);
    ShiftRight(b);
    ShiftsJoin(a, b);
  }

  lemma Turn9(a: u8, b: u8, c: u8, d: u8)
    ensures Join(Mid(b, c, 2, 0x80), Mid(c, d, 2, 0x80), Mid(d, a, 2, 0x80), Mid(a, b, 2, 0x80))
         == Rotl(Join(a, b, c, d), 9)
  {
    RotlIs(Join(a, b, c, d));
    DivModUnique(Join(a, b, c, d), 0x80_0000, 2 * a + b / 0x80, Join(0, b % 0x80, c, d));
  }

  lemma MachineRotl9(x: bv32)
    ensures Value(Rotl9(x)) == Rotl(Value(x), 9)
  {
    hide B0, B1, B2, B3, Join, Mid, Num, Pair9, Rotl, Rotl9;
    Bytes9(x);
    NumPair9(B2(x), B1(x));
    NumPair9(B1(x), B0(x));
    NumPair9(B0(x), B3(x));
    NumPair9(B3(x), B2(x));
    Turn9(Num(B3(x)), Num(B2(x)), Num(B1(x)), Num(B0(x)));
  }

  function Rotl13(x: bv32): (r: bv32) { (x << 13) | (x >> 19) }
  function Pair13(a: bv8, b: bv8): (r: bv8) { (a << 5) | (b >> 3) }

  lemma Bytes13(x: bv32)
    ensures B3(Rotl13(x)) == Pair13(B2(x), B1(x)) && B2(Rotl13(x)) == Pair13(B1(x), B0(x))
    ensures B1(Rotl13(x)) == Pair13(B0(x), B3(x)) && B0(Rotl13(x)) == Pair13(B3(x), B2(x))
  {
  }

  lemma NumPair13(a: bv8, b: bv8)
    ensures Num(Pair13(a, b)) == Mid(Num(a), Num(b), 0x20, 8)
  {
    hide Num;
    ShiftLeft5(a);
    ShiftRight(b);
    ShiftsJoin(a, b);
  }

  lemma Turn13(a: u8, b: u8, c: u8, d: u8)
    ensures Join(Mid(b, c, 0x20, 8), Mid(c, d, 0x20, 8), Mid(d, a, 0x20, 8), Mid(a, b, 0x20, 8))
         == Rotl(Join(a, b, c, d), 13)
  {
    RotlIs(Join(a, b, c, d));
    DivModUnique(Join(a, b, c, d), 0x8_0000, 0x20 * a + b / 8, Join(0, b % 8, c, d));
  }

  lemma MachineRotl13(x: bv32)
    ensures Value(Rotl13(x)) == Rotl(Value(x), 13)
  {
    hide B0, B1, B2, B3, Join, Mid, Num, Pair13, Rotl, Rotl13;
    Bytes13(x);
    NumPair13(B2(x), B1(x));
    NumPair13(B1(x), B0(x));
    NumPair13(B0(x), B3(x));
    NumPair13(B3(x), B2(x));
    Turn13(Num(B3(x)), Num(B2(x)), Num(B1(x)), Num(B0(x)));
  }

  function Rotl18(x: bv32): (r: bv32) { (x << 18) | (x >> 14) }
  function Pair18(a: bv8, b: bv8): (r: bv8) { (a << 2) | (b >> 6) }

  lemma Bytes18(x: bv32)
    ensures B3(Rotl18(x)) == Pair18(B1(x), B0(x)) && B2(Rotl18(x)) == Pair18(B0(x), B3(x))
    ensures B1(Rotl18(x)) == Pair18(B3(x), B2(x)) && B0(Rotl18(x)) == Pair18(B2(x), B1(x))
  {
  }

  lemma NumPair18(a: bv8, b: bv8)
    ensures Num(Pair18(a, b)) == Mid(Num(a), Num(b), 4, 0x40)
  {
    hide Num;
    ShiftLeft(a);
    ShiftRight(b);
    ShiftsJoin(a, b);
  }

  lemma Turn18(a: u8, b: u8, c: u8, d: u8)
    ensures Join(Mid(c, d, 4, 0x40), Mid(d, a, 4, 0x40), Mid(a, b, 4, 0x40), Mid(b, c, 4, 0x40))
         == Rotl(Join(a, b, c, d), 18)
  {
    RotlIs(Join(a, b, c, d));
    DivModUnique(Join(a, b, c, d), 0x4000, 0x400 * a + 4 * b + c / 0x40, Join(0, 0, c % 0x40, d));
  }

  lemma MachineRotl18(x: bv32)
    ensures Value(Rotl18(x)) == Rotl(Value(x), 18)
  {
    hide B0, B1, B2, B3, Join, Mid, Num, Pair18, Rotl, Rotl18;
    Bytes18(x);
    NumPair18(B1(x), B0(x));
    NumPair18(B0(x), B3(x));
    NumPair18(B3(x), B2(x));
    NumPair18(B2(x), B1(x));
    Turn18(Num(B3(x)), Num(B2(x)), Num(B1(x)), Num(B0(x)));
  }

  lemma Powers()
    ensures Pow2(7) == 0x80 && Pow2(9) == 0x200 && Pow2(13) == 0x2000 && Pow2(14) == 0x4000 && Pow2(18) == 0x4_0000
    ensures Pow2(19) == 0x8_0000 && Pow2(23) == 0x80_0000 && Pow2(25) == 0x200_0000
  {
    assert Pow2(7) == 0x80 && Pow2(5) == 0x20 && Pow2(4) == 0x10;
    hide Pow2;
    Pow2Add(5, 4);
    Pow2Add(9, 4);
    Pow2Add(7, 7);
    Pow2Add(9, 9);
    Pow2Add(14, 5);
    Pow2Add(18, 5);
    Pow2Add(18, 7);
  }

  lemma RotlIs(x: u32)
    ensures Rotl(x, 7) == x as int % 0x200_0000 * 0x80 + x as int / 0x200_0000
    ensures Rotl(x, 9) == x as int % 0x80_0000 * 0x200 + x as int / 0x80_0000
    ensures Rotl(x, 13) == x as int % 0x8_0000 * 0x2000 + x as int / 0x8_0000
    ensures Rotl(x, 18) == x as int % 0x4000 * 0x4_0000 + x as int / 0x4000
  {
    hide Pow2;
    Powers();
  }

  // ---------- quarter-rounds and rounds ----------

  /** The quarter-round of a, b, c and d is p, q, r and s. */
  predicate Mixed(a: bv32, b: bv32, c: bv32, d: bv32, p: bv32, q: bv32, r: bv32, s: bv32) {
    && q == Xored(b, (Added(a, d) << 7) | (Added(a, d) >> 25))
    && r == Xored(c, (Added(q, a) << 9) | (Added(q, a) >> 23))
    && s == Xored(d, (Added(r, q) << 13) | (Added(r, q) >> 19))
    && p == Xored(a, (Added(s, r) << 18) | (Added(s, r) >> 14))
  }

  lemma MixedIs(a: bv32, b: bv32, c: bv32, d: bv32, p: bv32, q: bv32, r: bv32, s: bv32)
    requires Mixed(a, b, c, d, p, q, r, s)
    ensures q == Xored(b, Rotl7(Added(a, d))) && r == Xored(c, Rotl9(Added(q, a)))
    ensures s == Xored(d, Rotl13(Added(r, q))) && p == Xored(a, Rotl18(Added(s, r)))
  {
    hide Added, Rotl13, Rotl18, Rotl7, Rotl9, Xored;
    RotlsAre(Added(a, d));
    RotlsAre(Added(q, a));
    RotlsAre(Added(r, q));
    RotlsAre(Added(s, r));
  }

  lemma RotlsAre(x: bv32)
    ensures Rotl7(x) == (x << 7) | (x >> 25) && Rotl9(x) == (x << 9) | (x >> 23)
    ensures Rotl13(x) == (x << 13) | (x >> 19) && Rotl18(x) == (x << 18) | (x >> 14)
  {
  }

  lemma MachineQuarter(a: bv32, b: bv32, c: bv32, d: bv32, p: bv32, q: bv32, r: bv32, s: bv32)
    requires Mixed(a, b, c, d, p, q, r, s)
    ensures Quarter(Value(a), Value(b), Value(c), Value(d)) == [Value(p), Value(q), Value(r), Value(s)]
  {
    hide Added, Mixed, Plus, Rotl, Rotl13, Rotl18, Rotl7, Rotl9, Value, XorWord, Xored;
    MixedIs(a, b, c, d, p, q, r, s);
    MachinePlus(a, d);
    MachineRotl7(Added(a, d));
    MachineXor(b, Rotl7(Added(a, d)));
    MachinePlus(q, a);
    MachineRotl9(Added(q, a));
    MachineXor(c, Rotl9(Added(q, a)));
    MachinePlus(r, q);
    MachineRotl13(Added(r, q));
    MachineXor(d, Rotl13(Added(r, q)));
    MachinePlus(s, r);
    MachineRotl18(Added(s, r));
    MachineXor(a, Rotl18(Added(s, r)));
  }

  /** Sixteen machine words. */
  datatype Matrix = Matrix(
    x0: bv32, x1: bv32, x2: bv32, x3: bv32, x4: bv32, x5: bv32, x6: bv32, x7: bv32,
    x8: bv32, x9: bv32, x10: bv32, x11: bv32, x12: bv32, x13: bv32, x14: bv32, x15: bv32)

  function Words(b: Matrix): (r: State) {
    [Value(b.x0), Value(b.x1), Value(b.x2), Value(b.x3),
     Value(b.x4), Value(b.x5), Value(b.x6), Value(b.x7),
     Value(b.x8), Value(b.x9), Value(b.x10), Value(b.x11),
     Value(b.x12), Value(b.x13), Value(b.x14), Value(b.x15)]
  }

  predicate Columns(b: Matrix, r: Matrix) {
    && Mixed(b.x0, b.x4, b.x8, b.x12, r.x0, r.x4, r.x8, r.x12)
    && Mixed(b.x5, b.x9, b.x13, b.x1, r.x5, r.x9, r.x13, r.x1)
    && Mixed(b.x10, b.x14, b.x2, b.x6, r.x10, r.x14, r.x2, r.x6)
    && Mixed(b.x15, b.x3, b.x7, b.x11, r.x15, r.x3, r.x7, r.x11)
  }

  predicate Rows(b: Matrix, r: Matrix) {
    && Mixed(b.x0, b.x1, b.x2, b.x3, r.x0, r.x1, r.x2, r.x3)
    && Mixed(b.x5, b.x6, b.x7, b.x4, r.x5, r.x6, r.x7, r.x4)
    && Mixed(b.x10, b.x11, b.x8, b.x9, r.x10, r.x11, r.x8, r.x9)
    && Mixed(b.x15, b.x12, b.x13, b.x14, r.x15, r.x12, r.x13, r.x14)
  }

  lemma MachineColumns(b: Matrix, r: Matrix)
    requires Columns(b, r)
    ensures ColumnRound(Words(b)) == Words(r)
  {
    hide Mixed, Quarter, Value;
    MachineQuarter(b.x0, b.x4, b.x8, b.x12, r.x0, r.x4, r.x8, r.x12);
    MachineQuarter(b.x5, b.x9, b.x13, b.x1, r.x5, r.x9, r.x13, r.x1);
    MachineQuarter(b.x10, b.x14, b.x2, b.x6, r.x10, r.x14, r.x2, r.x6);
    MachineQuarter(b.x15, b.x3, b.x7, b.x11, r.x15, r.x3, r.x7, r.x11);
  }

  lemma MachineRows(b: Matrix, r: Matrix)
    requires Rows(b, r)
    ensures RowRound(Words(b)) == Words(r)
  {
    hide Mixed, Quarter, Value;
    MachineQuarter(b.x0, b.x1, b.x2, b.x3, r.x0, r.x1, r.x2, r.x3);
    MachineQuarter(b.x5, b.x6, b.x7, b.x4, r.x5, r.x6, r.x7, r.x4);
    MachineQuarter(b.x10, b.x11, b.x8, b.x9, r.x10, r.x11, r.x8, r.x9);
    MachineQuarter(b.x15, b.x12, b.x13, b.x14, r.x15, r.x12, r.x13, r.x14);
  }
}
