/** The `crypto_box` entry points that netnacl uses: key pair and shared key. */
module CryptoBox {
  import opened Bits
  import opened Salsa20Spec
  import opened SalsaCore
  import opened StreamSpec
  import opened X25519Spec
  import opened ScalarMult

  /** The base point: nine, in 32 bytes. */
  function Nine(): (r: Key) {
    [9] + Zeros(31)
  }

  function PublicKey(sk: Key): (pk: Key) {
    X25519(sk, Nine())
  }

  function SharedKey(pk: Key, sk: Key): (k: Key) {
    HSalsa20(Zeros(16), X25519(sk, pk), SIGMA)
  }

  /** Bytes from the system's entropy source: anything at all. */
  method RandomBytes(a: array<u8>)
    modifies a
  {
    var i := 0;
    while i < a.Length
      invariant 0 <= i <= a.Length
    {
      var x: u8 := *;
      a[i] := x;
      i := i + 1;
    }
  }

  method CryptoBoxKeypair(y: array<u8>, x: array<u8>)
    requires y.Length == 32 && x.Length == 32 && x != y
    modifies x, y
    ensures y[..] == PublicKey(x[..])
  {
    hide X25519;
    RandomBytes(x);
    var nine := new u8[32](i => if i == 0 then 9 else 0);
    assert nine[..] == Nine();
    CryptoScalarmult(y, x, nine);
  }

  method CryptoBoxBeforenm(k: array<u8>, y: array<u8>, x: array<u8>, wordBits: nat)
    requires k.Length == 32 && y.Length == 32 && x.Length == 32 && wordBits >= 32
    modifies k
    ensures k[..] == SharedKey(old(y[..]), old(x[..]))
  {
    hide X25519, HSalsa20;
    var s := new u8[32];
    CryptoScalarmult(s, x, y);
    var zero := new u8[16](_ => 0);
    var sigma := new u8[16](i requires 0 <= i < 16 => SIGMA[i]);
    assert sigma[..] == SIGMA && zero[0..16] == Zeros(16);
    CryptoCoreHSalsa20(k, zero, 0, s, sigma, wordBits);
  }

  /**
    The hypothesis under which two endpoints agree: the order in which the two
    secret scalars are applied to the base point does not matter.
  */
  ghost predicate SecretsCommute() {
    forall x: Key, y: Key :: X25519(x, PublicKey(y)) == X25519(y, PublicKey(x))
  }

  lemma KeysAgree(x: Key, y: Key)
    requires SecretsCommute()
    ensures SharedKey(PublicKey(y), x) == SharedKey(PublicKey(x), y)
  {
    hide X25519, HSalsa20, PublicKey;
    assert X25519(x, PublicKey(y)) == X25519(y, PublicKey(x));
  }
}
