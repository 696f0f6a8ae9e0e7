/** Salsa20 over 32-bit words, following sections 2 to 10 of the Salsa20 specification, and HSalsa20. */
module Salsa20Spec {
  import opened Arith
  import opened Bits
  import opened Poly1305Spec

  const WORD: int := 0x1_0000_0000

  type State = s: seq<u32> | |s| == 16 witness seq(16, i => 0)

  function Plus(x: u32, y: u32): (r: u32) {
    (x as int + y as int) % WORD
  }

  /** Exclusive or of two words. */
  function XorWord(x: u32, y: u32): (r: u32) {
    WordSizes();
    XorBound(x, y, 32);
    Xor(x, y)
  }

  /** c-bit left rotation, 0 < c < 32: the top c bits reappear at the bottom. */
  function Rotl(x: u32, c: nat): (r: u32)
    requires 0 < c < 32
  {
    RotlRange(x, c);
    x as int % Pow2(32 - c) * Pow2(c) + x / Pow2(32 - c)
  }

  lemma RotlRange(x: u32, c: nat)
    requires 0 < c < 32
    ensures 0 <= x % Pow2(32 - c) * Pow2(c) <= WORD - Pow2(c)
    ensures 0 <= x / Pow2(32 - c) < Pow2(c)
  {
    hide Pow2;
    WordSizes();
    Pow2Add(32 - c, c);
    var p, q := Pow2(c), Pow2(32 - c);
    MulBound(x % q, p, q - 1, p);
    MulDistr(p, q, -1);
    QuotientBound(x, p, q);
  }

  function Quarter(y0: u32, y1: u32, y2: u32, y3: u32): (z: seq<u32>)
    ensures |z| == 4
  {
    var z1 := XorWord(y1, Rotl(Plus(y0, y3), 7));
    var z2 := XorWord(y2, Rotl(Plus(z1, y0), 9));
    var z3 := XorWord(y3, Rotl(Plus(z2, z1), 13));
    var z0 := XorWord(y0, Rotl(Plus(z3, z2), 18));
    [z0, z1, z2, z3]
  }

  function RowRound(y: State): (r: State) {
    var a := Quarter(y[0], y[1], y[2], y[3]);
    var b := Quarter(y[5], y[6], y[7], y[4]);
    var c := Quarter(y[10], y[11], y[8], y[9]);
    var d := Quarter(y[15], y[12], y[13], y[14]);
    [a[0], a[1], a[2], a[3],
     b[3], b[0], b[1], b[2],
     c[2], c[3], c[0], c[1],
     d[1], d[2], d[3], d[0]]
  }

  function ColumnRound(x: State): (r: State) {
    var a := Quarter(x[0], x[4], x[8], x[12]);
    var b := Quarter(x[5], x[9], x[13], x[1]);
    var c := Quarter(x[10], x[14], x[2], x[6]);
    var d := Quarter(x[15], x[3], x[7], x[11]);
    [a[0], b[3], c[2], d[1],
     a[1], b[0], c[3], d[2],
     a[2], b[1], c[0], d[3],
     a[3], b[2], c[1], d[0]]
  }

  function DoubleRounds(x: State, n: nat): (r: State) {
    if n == 0 then x else RowRound(ColumnRound(DoubleRounds(x, n - 1)))
  }

  function LittleEndian(b: seq<u8>): (r: u32)
    requires |b| == 4
  {
    b[0] as int + 0x100 * (b[1] as int) + 0x1_0000 * (b[2] as int) + 0x100_0000 * (b[3] as int)
  }

  /** The bytes of a list of words. */
  function Bytes(w: seq<u32>): (b: seq<u8>)
    ensures |b| == 4 * |w|
  {
    if w == [] then [] else LeBytes(w[0], 4) + Bytes(w[1..])
  }

  /** sigma0, k0, sigma1, n, sigma2, k1, sigma3 as sixteen words. */
  function Input(n: seq<u8>, k: seq<u8>, c: seq<u8>): (r: State)
    requires |n| == 16 && |k| == 32 && |c| == 16
  {
    [LittleEndian(c[0..4]),
     LittleEndian(k[0..4]), LittleEndian(k[4..8]), LittleEndian(k[8..12]), LittleEndian(k[12..16]),
     LittleEndian(c[4..8]),
     LittleEndian(n[0..4]), LittleEndian(n[4..8]), LittleEndian(n[8..12]), LittleEndian(n[12..16]),
     LittleEndian(c[8..12]),
     LittleEndian(k[16..20]), LittleEndian(k[20..24]), LittleEndian(k[24..28]), LittleEndian(k[28..32]),
     LittleEndian(c[12..16])]
  }

  /** The Salsa20 expansion function: one 64-byte block. */
  function Salsa20(n: seq<u8>, k: seq<u8>, c: seq<u8>): (b: seq<u8>)
    requires |n| == 16 && |k| == 32 && |c| == 16
    ensures |b| == 64
  {
    var x := Input(n, k, c);
    var z := DoubleRounds(x, 10);
    Bytes(seq(16, i requires 0 <= i < 16 => Plus(z[i], x[i])))
  }

  /** HSalsa20: the eight diagonal and input words after the rounds, without the feed-forward. */
  function HSalsa20(n: seq<u8>, k: seq<u8>, c: seq<u8>): (b: seq<u8>)
    requires |n| == 16 && |k| == 32 && |c| == 16
    ensures |b| == 32
  {
    var z := DoubleRounds(Input(n, k, c), 10);
    Bytes([z[0], z[5], z[10], z[15], z[6], z[7], z[8], z[9]])
  }

  // ---------- the round that tweetnacl.c iterates ----------

  function Transpose(x: State): (r: State) {
    [x[0], x[4], x[8], x[12],
     x[1], x[5], x[9], x[13],
     x[2], x[6], x[10], x[14],
     x[3], x[7], x[11], x[15]]
  }

  function TurningRounds(x: State, n: nat): (r: State) {
    if n == 0 then x else Transpose(ColumnRound(TurningRounds(x, n - 1)))
  }

  /** A row round is a column round seen through the transposition. */
  lemma RowIsColumn(x: State)
    ensures RowRound(x) == Transpose(ColumnRound(Transpose(x)))
  {
  }

  /** Twenty "column round, then transpose" steps are ten double rounds. */
  lemma {:induction false} TurningIsDouble(x: State, n: nat)
    ensures TurningRounds(x, 2 * n) == DoubleRounds(x, n)
  {
    hide ColumnRound, RowRound, Transpose;
    if n > 0 {
      TurningIsDouble(x, n - 1);
      var y := TurningRounds(x, 2 * n - 2);
      assert TurningRounds(x, 2 * n - 1) == Transpose(ColumnRound(y));
      RowIsColumn(ColumnRound(y));
    }
  }
}
