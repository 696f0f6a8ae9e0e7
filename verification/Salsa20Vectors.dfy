/** The vectors of the Salsa20 specification, the layout of the input block, and HSalsa20 beside Salsa20. */
module Salsa20Vectors {
  import opened Arith
  import opened Bits
  import opened Limbs
  import opened Poly1305Spec
  import opened Salsa20Spec
  import opened Salsa20Machine
  import opened StreamSpec
  import SalsaCore

  // ---------- section 3 of the Salsa20 specification ----------

  lemma QuarterDense()
    ensures Quarter(0xe7e8c006, 0xc4f9417d, 0x6479b4b2, 0x68c67137) == [0xe876d72b, 0x9361dfd5, 0xf1460244, 0x948541a3]
  {
    hide Quarter;
    MachineQuarter(0xe7e8c006, 0xc4f9417d, 0x6479b4b2, 0x68c67137, 0xe876d72b, 0x9361dfd5, 0xf1460244, 0x948541a3);
  }

  // ---------- sections 4 and 5 ----------

  lemma RowVector()
    ensures RowRound(Words(Matrix(1, 0, 0, 0, 1, 0, 0, 0, 1, 0, 0, 0, 1, 0, 0, 0)))
         == Words(Matrix(
           0x8008145, 0x80, 0x10200, 0x20500000, 0x20100001, 0x48044, 0x80, 0x10000,
           1, 0x2000, 0x80040000, 0, 1, 0x200, 0x402000, 0x88000100))
  {
    hide RowRound, Words;
    MachineRows(Matrix(1, 0, 0, 0, 1, 0, 0, 0, 1, 0, 0, 0, 1, 0, 0, 0),
         Matrix(
           0x8008145, 0x80, 0x10200, 0x20500000, 0x20100001, 0x48044, 0x80, 0x10000,
           1, 0x2000, 0x80040000, 0, 1, 0x200, 0x402000, 0x88000100));
  }

  lemma ColumnVector()
    ensures ColumnRound(Words(Matrix(1, 0, 0, 0, 1, 0, 0, 0, 1, 0, 0, 0, 1, 0, 0, 0)))
         == Words(Matrix(
           0x10090288, 0, 0, 0, 0x101, 0, 0, 0,
           0x20401, 0, 0, 0, 0x40a04001, 0, 0, 0))
  {
    hide ColumnRound, Words;
    MachineColumns(Matrix(1, 0, 0, 0, 1, 0, 0, 0, 1, 0, 0, 0, 1, 0, 0, 0),
         Matrix(
           0x10090288, 0, 0, 0, 0x101, 0, 0, 0,
           0x20401, 0, 0, 0, 0x40a04001, 0, 0, 0));
  }

  // ---------- section 9 ----------

  /** The example of section 9: the key 1 to 16, 201 to 216 and the block number 101 to 116. */
  function ExampleKey(): (k: seq<u8>) {
    seq(32, i requires 0 <= i < 32 => if i < 16 then i + 1 else i + 185)
  }

  function ExampleNonce(): (n: seq<u8>) {
    seq(16, i requires 0 <= i < 16 => i + 101)
  }

  /** The block before the first and after each double round, and between the two halves of each. */
  function After0(): (b: Matrix) {
    Matrix(
      0x61707865, 0x04030201, 0x08070605, 0x0c0b0a09, 0x100f0e0d, 0x3320646e, 0x68676665, 0x6c6b6a69,
      0x706f6e6d, 0x74737271, 0x79622d32, 0xcccbcac9, 0xd0cfcecd, 0xd4d3d2d1, 0xd8d7d6d5, 0x6b206574)
  }
  function Middle0(): (b: Matrix) {
    Matrix(
      0x1ac1fab1, 0xf11a5d69, 0x0893a96e, 0xfa131492, 0x302c9714, 0x32047ee9, 0x50b50ef3, 0x0a9f66a3,
      0x4a719d4e, 0xe5c045ea, 0x98e74810, 0x83ad6a5f, 0x1643819e, 0x158762e0, 0x3c1e1d25, 0x2f2a5c47)
  }
  function After1(): (b: Matrix) {
    Matrix(
      0xe10c4e81, 0x9b9dfce3, 0xb77c8002, 0xb58fbef1, 0x143fae44, 0x486a24ea, 0x483ff042, 0x82413057,
      0xefcf7d9c, 0x875fdded, 0xf6c294ad, 0xd06b9760, 0xb27f37ab, 0x46a08723, 0xcbc7c206, 0x0b8e15e6)
  }
  function Middle1(): (b: Matrix) {
    Matrix(
      0x5c557209, 0x62678a16, 0x27e80c80, 0x49591d9c, 0xd1fcb80d, 0x33407fca, 0xf07cde0f, 0x4c2634fe,
      0xfdc260fa, 0x834f3b1f, 0x5cfef53e, 0x3a38c5cf, 0x515fce5c, 0x346094b4, 0x4a85b599, 0xe0b80c9d)
  }
  function After2(): (b: Matrix) {
    Matrix(
      0xcd1276c4, 0xb52058c4, 0xcc7d96a2, 0xf4b5cdaf, 0xabd4564b, 0xfb56c349, 0x6ee7358d, 0x034c9bba,
      0xc2029a0e, 0xf3e680fb, 0x30d8229a, 0x1d20eb3f, 0xcfbed549, 0xd9a359d4, 0x0f6600b5, 0x8a9fa8b8)
  }
  function Middle2(): (b: Matrix) {
    Matrix(
      0xfa053695, 0xf5ee9537, 0x8811bea1, 0x14fc367c, 0xc3725085, 0xad7cb7c9, 0x14a45e96, 0x34f2f285,
      0xcb8c092f, 0xc8688623, 0x44065042, 0xf800c202, 0x04884496, 0xa7318053, 0xd0ca137a, 0x58831b76)
  }
  function After3(): (b: Matrix) {
    Matrix(
      0x25f0f35e, 0x75581db0, 0x32b9347f, 0x3eb9c37e, 0xd1b81eb3, 0x402336e9, 0x632079ae, 0x0e901ca4,
      0x2f0d8509, 0xe6d939ec, 0xbfd207d8, 0xcf6bf084, 0xa21f3c82, 0xe39e71a6, 0x650f03cd, 0x8d4e39c3)
  }
  function Middle3(): (b: Matrix) {
    Matrix(
      0x37fcd29c, 0x4d20f8f7, 0x71285dc7, 0x63ace0d0, 0xd9afeed7, 0x5e035974, 0x60f40801, 0xf8a53b45,
      0x6ec9eef6, 0x5b737536, 0x28f14fa9, 0x8ce95b0e, 0x99a6958d, 0xcec64e91, 0x1c4fc0dc, 0xd4002ff9)
  }
  function After4(): (b: Matrix) {
    Matrix(
      0x6d7ed474, 0x99f94eba, 0x9d6af064, 0xe44f263c, 0xb30f4dc8, 0x8acf139d, 0xb9502d9a, 0x5fab276b,
      0x97c10538, 0xdc33ffff, 0x3c2c807d, 0xbe8b34cc, 0xbe5eff75, 0x709893b5, 0xee2a8502, 0xb6dd54f5)
  }
  function Middle4(): (b: Matrix) {
    Matrix(
      0xd611689c, 0xf28affd3, 0xc9741b7d, 0x500bc686, 0x5de6b95d, 0x96c004d3, 0x8c1e8ea4, 0x8d9dd166,
      0x5cdaa6ae, 0xb802d46d, 0x94a9d637, 0x8c76af79, 0x925f882d, 0xd3488730, 0x507d8ef8, 0xb5a13ca7)
  }
  function After5(): (b: Matrix) {
    Matrix(
      0x8bdaf4d2, 0xfc1d6ec0, 0x94daa2d9, 0x5238f499, 0xd4abb4e0, 0x3769898a, 0xdf4196de, 0x8eaab38a,
      0xc77d8a73, 0x88f88059, 0xbf9897ef, 0xda23fd5f, 0x9d3a47ae, 0x64402d95, 0x1ed5eed7, 0xc41330ff)
  }
  function Middle5(): (b: Matrix) {
    Matrix(
      0x50bdd18e, 0xb7a76eb4, 0x229aacbf, 0x49afdbd6, 0x5e35f4f4, 0xaa78369e, 0x79db6415, 0x08b31991,
      0xe6ae07a7, 0x4b84a540, 0xfccae637, 0x848f1713, 0xe2a92f32, 0xb81db890, 0x73c28818, 0x068105f7)
  }
  function After6(): (b: Matrix) {
    Matrix(
      0xcd8e0c5d, 0x8171dcf9, 0x7dc7a31b, 0x79ad4431, 0x0053627c, 0x08062180, 0x2ecead11, 0x85744623,
      0xcd8bdae7, 0x9b776b5a, 0xe5cf423a, 0xa34aacb7, 0xc36e288f, 0x6640b503, 0xa870cd2d, 0x0e413f31)
  }
  function Middle6(): (b: Matrix) {
    Matrix(
      0x7978974b, 0xdd6fcf9e, 0xd0926083, 0xbc58b069, 0x7e491434, 0x6bc74109, 0x17ebfbf2, 0xb6ab73b6,
      0x63caf870, 0x2088579e, 0x9418e3c3, 0x27c942d7, 0x42fab4cd, 0x7ab28952, 0xe68768a7, 0xd47646e3)
  }
  function After7(): (b: Matrix) {
    Matrix(
      0x7ca4f449, 0x35cc1584, 0x59cbffdd, 0xbef4819a, 0x68bc0cc1, 0x164f0384, 0x1fc16507, 0xa7e752a1,
      0xb8615866, 0xe9c63268, 0xbf226b5d, 0x7754f20d, 0x3c2d7190, 0x3dc26f73, 0x1aa7079a, 0x08432746)
  }
  function Middle7(): (b: Matrix) {
    Matrix(
      0xf5f0be5d, 0xa5d68bdb, 0xba895b89, 0x72f82825, 0x018ee01d, 0x4fc9d1a5, 0x0deea1bc, 0xd1798457,
      0xdfc9949a, 0xe44ab64e, 0x4a354a82, 0x42db7a83, 0x32bb8dbb, 0x0eb1ca86, 0x6b4f35f5, 0xf32b7615)
  }
  function After8(): (b: Matrix) {
    Matrix(
      0xe9bfd254, 0xd1a5caef, 0x979bc206, 0x4366850d, 0x8687ee7f, 0xd7048e32, 0xa1b64094, 0xd15df7b4,
      0xff73b800, 0x3d183607, 0xf229b8ad, 0x02db1294, 0x0fed8894, 0x3f4c9880, 0x2f6dbc12, 0xa162ccfc)
  }
  function Middle8(): (b: Matrix) {
    Matrix(
      0x9038446d, 0xb69ffc44, 0xe230d363, 0x5d894d5f, 0x502a9a03, 0xea0c8128, 0x9fb194cc, 0x09694049,
      0x2bab1673, 0x6834a6d3, 0x5297bf24, 0x536e1e4a, 0xb9e347ee, 0x4d2692fe, 0xc0911cdb, 0xdb2fbfa1)
  }
  function After9(): (b: Matrix) {
    Matrix(
      0x5effa3e1, 0x56571a32, 0xfc8decae, 0xfd554703, 0x66565996, 0xdaa37a38, 0x843c0151, 0x986db295,
      0xc2e2617c, 0x80d6d9d4, 0xbfd6b1c0, 0x355ce597, 0x598d79a3, 0x37541a97, 0xf2164ec7, 0x7e571a08)
  }
  function Middle9(): (b: Matrix) {
    Matrix(
      0x53bef9e9, 0x89a96c94, 0xb07da7d8, 0x24aa88da, 0x20d89bca, 0x244e7f35, 0x29fbb428, 0x9b2877d3,
      0x729d3783, 0xfd9ceccc, 0xcfd5d825, 0x5549526d, 0xe3e4cbcd, 0xb79a1327, 0xfb4fc665, 0x5754dbcf)
  }
  function After10(): (b: Matrix) {
    Matrix(
      0xc5d3ace0, 0xbd680d28, 0xfe7385fa, 0x56cedfa1, 0x5aa7824c, 0x0ea7cea7, 0xba76cb8a, 0x11bd086e,
      0x709856fb, 0x8dac2754, 0x36ea2134, 0xec2b2a8b, 0xb1b5d1e4, 0xa2c17535, 0x13aceceb, 0xdfd60276)
  }

  lemma Round0()
    ensures Columns(After0(), Middle0()) && Rows(Middle0(), After1())
  {
  }

  lemma Round1()
    ensures Columns(After1(), Middle1()) && Rows(Middle1(), After2())
  {
  }

  lemma Round2()
    ensures Columns(After2(), Middle2()) && Rows(Middle2(), After3())
  {
  }

  lemma Round3()
    ensures Columns(After3(), Middle3()) && Rows(Middle3(), After4())
  {
  }

  lemma Round4()
    ensures Columns(After4(), Middle4()) && Rows(Middle4(), After5())
  {
  }

  lemma Round5()
    ensures Columns(After5(), Middle5()) && Rows(Middle5(), After6())
  {
  }

  lemma Round6()
    ensures Columns(After6(), Middle6()) && Rows(Middle6(), After7())
  {
  }

  lemma Round7()
    ensures Columns(After7(), Middle7()) && Rows(Middle7(), After8())
  {
  }

  lemma Round8()
    ensures Columns(After8(), Middle8()) && Rows(Middle8(), After9())
  {
  }

  lemma Round9()
    ensures Columns(After9(), Middle9()) && Rows(Middle9(), After10())
  {
  }

  predicate Reached(y: Matrix, n: nat) {
    DoubleRounds(Words(After0()), n) == Words(y)
  }

  lemma OneMore(x: Matrix, m: Matrix, y: Matrix, n: nat)
    requires Reached(x, n) && Columns(x, m) && Rows(m, y)
    ensures Reached(y, n + 1)
  {
    hide RowRound, ColumnRound, Words, After0, Columns, Rows;
    MachineColumns(x, m);
    MachineRows(m, y);
  }

  lemma NoRounds()
    ensures Reached(After0(), 0)
  {
  }

  lemma FourRounds()
    ensures Reached(After4(), 4)
  {
    hide *;
    NoRounds();
    Round0();
    OneMore(After0(), Middle0(), After1(), 0);
    Round1();
    OneMore(After1(), Middle1(), After2(), 1);
    Round2();
    OneMore(After2(), Middle2(), After3(), 2);
    Round3();
    OneMore(After3(), Middle3(), After4(), 3);
  }

  lemma SevenRounds()
    ensures Reached(After7(), 7)
  {
    hide *;
    FourRounds();
    Round4();
    OneMore(After4(), Middle4(), After5(), 4);
    Round5();
    OneMore(After5(), Middle5(), After6(), 5);
    Round6();
    OneMore(After6(), Middle6(), After7(), 6);
  }

  lemma TenRounds()
    ensures Reached(After10(), 10)
  {
    hide *;
    SevenRounds();
    Round7();
    OneMore(After7(), Middle7(), After8(), 7);
    Round8();
    OneMore(After8(), Middle8(), After9(), 8);
    Round9();
    OneMore(After9(), Middle9(), After10(), 9);
  }

  lemma ExampleInput()
    ensures Input(ExampleNonce(), ExampleKey(), SIGMA) == Words(After0())
  {
  }

  lemma ExampleFeed(i: nat)
    requires i < 16
    ensures Plus(Words(After10())[i], Words(After0())[i]) == Words(ExampleBlock())[i]
  {
  }

  function ExampleBlock(): (b: Matrix) {
    Matrix(
      0x27442545, 0xc16b0f29, 0x067a8bff, 0x62d9e9aa, 0x6ab69059, 0x41c83315, 0x22de31ef, 0x7e2872d7,
      0xe107c568, 0x021f99c5, 0xb04c4e66, 0xb8f6f554, 0x8285a0b1, 0x77954806, 0xec84c3c0, 0x4af667ea)
  }

  /** Section 9: the whole block, with its ten double rounds and its feed-forward. */
  lemma BlockVector()
    ensures Salsa20(ExampleNonce(), ExampleKey(), SIGMA) == Bytes(Words(ExampleBlock()))
  {
    hide After0, After10, Bytes, DoubleRounds, ExampleBlock, ExampleKey, ExampleNonce, Input, Plus, Words;
    ExampleInput();
    TenRounds();
    forall i | 0 <= i < 16
      ensures Plus(Words(After10())[i], Words(After0())[i]) == Words(ExampleBlock())[i]
    {
      ExampleFeed(i);
    }
    assert seq(16, i requires 0 <= i < 16 => Plus(Words(After10())[i], Words(After0())[i])) == Words(ExampleBlock());
  }

  // ---------- the block ----------

  /** Section 9: the input block is made of the constant's words around the two halves of the key and the nonce. */
  lemma InputLayout(n: seq<u8>, k: seq<u8>, c: seq<u8>)
    requires |n| == 16 && |k| == 32 && |c| == 16
    ensures Bytes(Input(n, k, c)) == c[0..4] + k[..16] + c[4..8] + n + c[8..12] + k[16..] + c[12..]
  {
    hide Bytes, LittleEndian;
    var w := [LittleEndian(c[0..4])] + FourWords(k[..16]) + [LittleEndian(c[4..8])] + FourWords(n)
             + [LittleEndian(c[8..12])] + FourWords(k[16..]) + [LittleEndian(c[12..16])];
    InputWords(n, k, c);
    BytesOfSeven([LittleEndian(c[0..4])], FourWords(k[..16]), [LittleEndian(c[4..8])], FourWords(n),
                 [LittleEndian(c[8..12])], FourWords(k[16..]), [LittleEndian(c[12..16])]);
    OneWord(c[0..4]);
    OneWord(c[4..8]);
    OneWord(c[8..12]);
    OneWord(c[12..16]);
    FourWordsBytes(k[..16]);
    FourWordsBytes(n);
    FourWordsBytes(k[16..]);
  }

  function FourWords(s: seq<u8>): (w: seq<u32>)
    requires |s| == 16
  {
    [LittleEndian(s[0..4]), LittleEndian(s[4..8]), LittleEndian(s[8..12]), LittleEndian(s[12..16])]
  }

  lemma InputWords(n: seq<u8>, k: seq<u8>, c: seq<u8>)
    requires |n| == 16 && |k| == 32 && |c| == 16
    ensures Input(n, k, c)
         == [LittleEndian(c[0..4])] + FourWords(k[..16]) + [LittleEndian(c[4..8])] + FourWords(n)
            + [LittleEndian(c[8..12])] + FourWords(k[16..]) + [LittleEndian(c[12..16])]
  {
    hide LittleEndian;
    assert k[0..16] == k[..16] && k[16..32] == k[16..];
    Piece(k, 0, 0);
    Piece(k, 0, 4);
    Piece(k, 0, 8);
    Piece(k, 0, 12);
    Piece(k, 16, 0);
    Piece(k, 16, 4);
    Piece(k, 16, 8);
    Piece(k, 16, 12);
  }

  lemma Piece(k: seq<u8>, i: nat, j: nat)
    requires i + 16 <= |k| && j <= 12
    ensures k[i..i + 16][j..j + 4] == k[i + j..i + j + 4]
  {
    var h := k[i..i + 16];
    var l, r := h[j..j + 4], k[i + j..i + j + 4];
    assert l[0] == r[0] && l[1] == r[1] && l[2] == r[2] && l[3] == r[3];
  }

  lemma BytesOfSeven(
      a: seq<u32>, b: seq<u32>, c: seq<u32>, d: seq<u32>, e: seq<u32>, f: seq<u32>, g: seq<u32>)
    ensures Bytes(a + b + c + d + e + f + g)
         == Bytes(a) + Bytes(b) + Bytes(c) + Bytes(d) + Bytes(e) + Bytes(f) + Bytes(g)
  {
    hide Bytes;
    SalsaCore.BytesConcat(a, b);
    SalsaCore.BytesConcat(a + b, c);
    SalsaCore.BytesConcat(a + b + c, d);
    SalsaCore.BytesConcat(a + b + c + d, e);
    SalsaCore.BytesConcat(a + b + c + d + e, f);
    SalsaCore.BytesConcat(a + b + c + d + e + f, g);
  }

  lemma OneWord(b: seq<u8>)
    requires |b| == 4
    ensures Bytes([LittleEndian(b)]) == b
  {
    WordBytes(b);
    hide LittleEndian, LeBytes;
    assert [LittleEndian(b)][1..] == [];
    assert Bytes([]) == [];
  }

  lemma FourWordsBytes(s: seq<u8>)
    requires |s| == 16
    ensures Bytes(FourWords(s)) == s
  {
    hide Bytes, LittleEndian;
    var a, b, c, d := LittleEndian(s[0..4]), LittleEndian(s[4..8]), LittleEndian(s[8..12]), LittleEndian(s[12..16]);
    SalsaCore.BytesConcat([a], [b]);
    SalsaCore.BytesConcat([a] + [b], [c]);
    SalsaCore.BytesConcat([a] + [b] + [c], [d]);
    OneWord(s[0..4]);
    OneWord(s[4..8]);
    OneWord(s[8..12]);
    OneWord(s[12..16]);
    assert FourWords(s) == [a] + [b] + [c] + [d];
    assert s == s[0..4] + s[4..8] + s[8..12] + s[12..16];
  }

  lemma WordBytes(b: seq<u8>)
    requires |b| == 4
    ensures LeBytes(LittleEndian(b), 4) == b
  {
    assert b[1..][1..][1..][1..] == [];
    LeBytesVal(b, 4);
    assert Val(b[1..][1..][1..], 256) == b[3] + 256 * Val([], 256);
    assert Val(b[1..][1..], 256) == b[2] + 256 * Val(b[1..][1..][1..], 256);
    assert Val(b[1..], 256) == b[1] + 256 * Val(b[1..][1..], 256);
  }

  /** The constant is the text that the specification gives. */
  lemma SigmaIsText()
    ensures forall i :: 0 <= i < 16 ==> SIGMA[i] == "expand 32-byte k"[i] as int
  {
  }

  // ---------- HSalsa20 ----------

  /** Word i of a list of bytes. */
  function WordAt(b: seq<u8>, i: nat): (r: u32)
    requires 4 * i + 4 <= |b|
  {
    LittleEndian(b[4 * i..4 * i + 4])
  }

  lemma WordOfBytes(w: u32)
    ensures LittleEndian(LeBytes(w, 4)) == w
  {
    var b := LeBytes(w, 4);
    assert LeBytes(w as int / 0x100 / 0x100 / 0x100, 1) == [w as int / 0x100 / 0x100 / 0x100 % 0x100];
    assert b[1..] == LeBytes(w as int / 0x100, 3);
    assert b[1..][1..] == LeBytes(w as int / 0x100 / 0x100, 2);
    assert b[1..][1..][1..] == LeBytes(w as int / 0x100 / 0x100 / 0x100, 1);
  }

  lemma {:induction false} WordOfList(w: seq<u32>, i: nat)
    requires i < |w|
    ensures WordAt(Bytes(w), i) == w[i]
  {
    hide LittleEndian, LeBytes;
    var l, r := LeBytes(w[0], 4), Bytes(w[1..]);
    if i == 0 {
      assert (l + r)[..4] == l;
      WordOfBytes(w[0]);
    } else {
      WordOfList(w[1..], i - 1);
      assert (l + r)[4 * i..4 * i + 4] == r[4 * (i - 1)..4 * (i - 1) + 4];
    }
  }

  /**
    HSalsa20 is Salsa20 without the feed-forward: with the input words added again, its eight words are the words
    of the Salsa20 block on the diagonal and in the place of the block number.
  */
  lemma HSalsaBesideSalsa(n: seq<u8>, k: seq<u8>, c: seq<u8>, j: nat)
    requires |n| == 16 && |k| == 32 && |c| == 16 && j < 8
    ensures var i := if j < 4 then 5 * j else j + 2;
            Plus(WordAt(HSalsa20(n, k, c), j), Input(n, k, c)[i]) == WordAt(Salsa20(n, k, c), i)
  {
    hide Bytes, DoubleRounds, Input, Plus, WordAt;
    var i := if j < 4 then 5 * j else j + 2;
    var x := Input(n, k, c);
    var z := DoubleRounds(x, 10);
    WordOfList([z[0], z[5], z[10], z[15], z[6], z[7], z[8], z[9]], j);
    WordOfList(seq(16, i requires 0 <= i < 16 => Plus(z[i], x[i])), i);
  }

  /** Every byte of the XSalsa20 stream, from the key, the two parts of the nonce and its place. */
  lemma XStreamByte(k: Key, n: Nonce, len: nat, i: nat)
    requires i < len
    ensures XStream(k, n, len)[i]
         == Salsa20(n[16..] + LeBytes(i / 64, 8), HSalsa20(n[..16], k, SIGMA), SIGMA)[i % 64]
  {
    hide Salsa20, HSalsa20, LeBytes;
  }
}
