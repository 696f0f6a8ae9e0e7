/** The function X25519 as section 5 of RFC 7748 writes it, over the integers modulo 2^255 - 19. */
module X25519Spec {
  import opened Arith
  import opened Bits
  import opened Limbs
  import opened Poly1305Spec

  /** 2^255 - 19 */
  const P25519: nat := 0x7fff_ffff_ffff_ffff_ffff_ffff_ffff_ffff_ffff_ffff_ffff_ffff_ffff_ffff_ffff_ffed

  function FAdd(x: int, y: int): (r: nat) { (x + y) % P25519 }
  function FSub(x: int, y: int): (r: nat) { (x - y) % P25519 }
  function FMul(x: int, y: int): (r: nat) { (x * y) % P25519 }
  function FPow(x: int, e: nat): (r: nat) { Pow(x, e) % P25519 }

  /** decodeUCoordinate: the top bit of the last byte is ignored. */
  function DecodeU(u: seq<u8>): (r: int)
    requires |u| == 32
  {
    Val(u[..31] + [u[31] % 128], 256)
  }

  /** decodeScalar25519: `k[0] &= 248; k[31] &= 127; k[31] |= 64`. */
  function ScalarBytes(k: seq<u8>): (b: seq<int>)
    requires |k| == 32
    ensures |b| == 32
  {
    var b: seq<int> := k;
    b[0 := And(248, k[0])][31 := Or(64, And(127, k[31]))]
  }

  function DecodeScalar(k: seq<u8>): (r: int)
    requires |k| == 32
  {
    Val(ScalarBytes(k), 256)
  }

  datatype Ladder = Ladder(x2: int, z2: int, x3: int, z3: int, swap: bool)

  function CondSwap(s: Ladder, b: bool): (r: Ladder) {
    if b then s.(x2 := s.x3, z2 := s.z3, x3 := s.x2, z3 := s.z2) else s
  }

  /** The formulas in the body of the ladder loop, after the conditional swaps. */
  function Formulas(x1: int, s: Ladder): (r: Ladder) {
    var A := FAdd(s.x2, s.z2);
    var AA := FMul(A, A);
    var B := FSub(s.x2, s.z2);
    var BB := FMul(B, B);
    var E := FSub(AA, BB);
    var C := FAdd(s.x3, s.z3);
    var D := FSub(s.x3, s.z3);
    var DA := FMul(D, A);
    var CB := FMul(C, B);
    var sum := FAdd(DA, CB);
    var diff := FSub(DA, CB);
    Ladder(FMul(AA, BB), FMul(E, FAdd(AA, FMul(121665, E))), FMul(sum, sum), FMul(x1, FMul(diff, diff)), s.swap)
  }

  function Bit(k: int, t: nat): (r: bool) {
    k / Pow2(t) % 2 == 1
  }

  /** The state after the bits 254 down to t have been processed. */
  function Climb(k: int, x1: int, t: nat): (r: Ladder)
    requires t <= 255
    decreases 255 - t
  {
    if t == 255 then Ladder(1, 0, x1, 1, false)
    else
      var s := Climb(k, x1, t + 1);
      Formulas(x1, CondSwap(s, s.swap != Bit(k, t)).(swap := Bit(k, t)))
  }

  function X25519(k: seq<u8>, u: seq<u8>): (q: seq<u8>)
    requires |k| == 32 && |u| == 32
    ensures |q| == 32
  {
    var s := Climb(DecodeScalar(k), DecodeU(u) % P25519, 0);
    var r := CondSwap(s, s.swap);
    LeBytes(FMul(r.x2, FPow(r.z2, P25519 - 2)), 32)
  }
}
