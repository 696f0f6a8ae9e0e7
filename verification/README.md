# A verified model of nacl-proxy

nacl-proxy relays TCP connections. Each side of a connection is either plain or encrypted with the
authenticated box of NaCl. This project models the three layers of the program and proves what they
promise, separately and together, for every input, every run and every way the operating system may cut
the byte streams up.

* **The box** (`src/netnacl/src/tweetnacl.c`). Limb arithmetic is proved against the standards:
  Poly1305 against section 2.5 of RFC 8439, X25519 against section 5 of RFC 7748, Salsa20, HSalsa20
  and XSalsa20 against the Salsa20 specification. The definitions these proofs rest on are pinned in turn by
  closed forms and by the standards' own examples. Modules `Arith`, `Bits`, `Limbs`, `Poly1305Spec`,
  `Poly1305`, `Poly1305Laws`, `X25519Spec`, `Field25519`, `ScalarMult`, `X25519Laws`, `Salsa20Spec`,
  `SalsaCore`, `Salsa20Machine`, `Salsa20Vectors`, `StreamSpec`, `SecretBox`, `CryptoBox`.
* **The record layer** (`src/netnacl/src/netnacl.c`). A resumable key exchange and length-prefixed
  frames. `Wires` is a byte stream whose every call serves any positive number of bytes, blocks, ends or
  fails, and which remembers what came of each call. `NetNacl.Endpoint` is the context with its buffers and counters, `Records` and `Receiving` say
  what its fields mean, `LinkSpec` holds the invariant of one direction on values, `Link` runs two
  endpoints under every schedule of calls, and `AnyPeer` runs one endpoint against a peer that may send
  anything.
* **The relay** (`src/buf.c`, `src/proxy.c`, `src/event.c`). `EventRows` and `Events` are the slot table
  and one dispatch pass, `Bufs` the two buffer loops over plain and encrypted sides, `Proxy`,
  `Handshakes` and `Lifecycle` the callbacks on one connection, `Server` all connections of a running
  proxy, `Shutdown` its end, and `Tunnel` two proxies back to back. `Errors` has the error codes.

Classes stand for what the program updates in place (`Endpoint`, `Net`, `Buf`, `Conn`, `EventManager`),
arrays for its buffers and limb vectors, and the ghost fields for history: what a side has obtained, what
it has taken, and which frames were made for it.

Two hypotheses are stated where they are used. `CryptoBox.SecretsCommute` says that two secret scalars may
be applied to the base point in either order; it is needed only where two endpoints must agree on a key.
`Bufs.Net.Hears` says that the peer of an encrypted side sends frames under the agreed key; in `Server` the
environment is one that does so (`Bufs.Net.PeerSpeaks`), in `Link` and `Tunnel` it is proved, because there
the peer is the program itself, and in `AnyPeer` it is not used.

## Findings

* **Half-closed connections are not freed at shutdown.** When a side ends while its data still waits for
  the other side, `handle_recv` closes it and leaves `ref` at 2 with one slot in the table
  (`src/proxy.c:468-476`). `event_teardown` visits that slot once, `free_connection` only counts down
  (`src/event.c:148-163`, `src/proxy.c:558-574`), and the connection stays allocated. For every run,
  a connection is freed at the end exactly when it is not half-closed (`Shutdown.Teardown`,
  `Shutdown.ProxyRun`), and such a connection does come about (`Shutdown.HalfClosedIsNeverFreed`).
* **Sending on a side that was just closed.** After that same step `conn_callback` may go on to
  `handle_send` on the closed side (`src/proxy.c:427-430`). The side is refused, nothing is delivered, and
  the connection stays in order or is closed (`Proxy.ThenSend`, `Bufs.SendSome`). This is the behaviour of a
  build without assertions: with them, an encrypted side has lost its context by then and the assertion at
  `src/netnacl/src/netnacl.c:242` stops the program. On a plain side `send` meets a descriptor of -1, and
  the answer is PROXY_ERR (`Bufs.BufSend`): the connection is closed and freed with the bytes for the
  other side undelivered (`Proxy.ThenSend`), `conn_callback` passes the error on
  (`src/proxy.c:432-436`), and `src/event.c:137-139` then ends the loop for every connection.
* **A length that `recv_ct` cannot hold.** `recv_ciphertext` never compares the length in the header with
  the 4128 bytes of `recv_ct` (`src/netnacl/src/netnacl.c:287-290`). The call of `recv` stays inside the
  buffer exactly when the length is at most 4128 (`NetNacl.Endpoint.RecvCiphertext`); the shortest header
  for which it does not starts with the bytes 16 and 33 (`AnyPeer.TooLongHeader`). Over any number of calls
  and any stream, it stays inside exactly when a reader of the bytes taken meets no such header
  (`AnyPeer.Listen`). What a sender frames never leads there (`Receiving.BoxReadFollows`).
* **Records that are never left behind.** A record that does not open, or that opens to no text, stays in
  the fields, and every later call meets it again (`src/netnacl/src/netnacl.c:212-228`): nothing that
  follows it is ever handed out. The reference `AnyPeer.ReadAll` stops there, and `AnyPeer.Listen` proves
  that the receiver hands out no more. `netnacl_send` makes such a record for an empty buffer; the
  relay never does so. A record without a text also makes `netnacl_recv` return 0, which `buf_recv` takes for the
  end of the side (`src/buf.c:102-105`): the relay then closes a connection whose stream has not ended. An
  orderly end therefore means one of the two (`Bufs.Ended`); on a plain side it means that everything was
  read (`Server.EveryConnection`).

## Model

| member | source | states |
|---|---|---|
| Poly1305.CryptoOnetimeauth | src/netnacl/src/tweetnacl.c:186-237 | for every message and key, the 16 bytes written are the Poly1305 tag of RFC 8439, and nothing else in the output array changes; every word on the way fits 32 bits |
| Poly1305Laws.TagIs | src/netnacl/src/tweetnacl.c:186-237 | for every message and key the tag is a formula: the sum over the blocks of block, with a one above it, times r to the number of blocks left, modulo 2^130-5, plus the second half of the key, where r is the first half masked with 0x0ffffffc0ffffffc0ffffffc0fffffff |
| Poly1305Laws.AccumulateIs | src/netnacl/src/tweetnacl.c:200-225 | from any block on, whatever the accumulator, it is that polynomial |
| Poly1305Laws.ClampIsMask | src/netnacl/src/tweetnacl.c:192-199 | clearing bits in seven bytes of the key is that mask on its number |
| Poly1305Laws.EmptyTag | src/netnacl/src/tweetnacl.c:232-235 | the tag of no message is the second half of the key |
| Poly1305Laws.RfcTag | src/netnacl/src/tweetnacl.c:186-237 | the tag of the example in section 2.5.2 of RFC 8439 |
| Poly1305.Product | src/netnacl/src/tweetnacl.c:206-209 | the 17 rows of the product with the 320-fold for the wrapped part, each below 353736000 and so within a 32-bit word |
| Poly1305.RowsVal | src/netnacl/src/tweetnacl.c:206-209 | folding with 320 keeps the product of the two numbers modulo 2^130-5, row by row |
| Poly1305.MultiplyReduce | src/netnacl/src/tweetnacl.c:206-224 | multiplication and the two carry passes leave a number congruent to the product, in digits, below twice the prime |
| Poly1305.FoldedVal | src/netnacl/src/tweetnacl.c:217-224 | folding the bits from 2^130 up with factor 5 keeps the residue and brings the number below twice the prime |
| Poly1305.Freeze | src/netnacl/src/tweetnacl.c:227-230 | adding minus p and choosing with the sign mask gives exactly the residue, for words of any width from 32 bits |
| Poly1305.Absorb | src/netnacl/src/tweetnacl.c:200-225 | after any number of blocks, the last one of any length, the accumulator holds the standard's accumulator modulo p |
| Field25519.CarriedVal | src/netnacl/src/tweetnacl.c:274-284 | a carry pass changes the number by a stated multiple of 2^255-19 and so keeps the field element |
| Field25519.Car25519 | src/netnacl/src/tweetnacl.c:274-284 | the in-place loop with its borrowed 2^16 is that carry pass, without 64-bit overflow below 2^62 |
| Field25519.SecondPass | src/netnacl/src/tweetnacl.c:362-363 | a second pass leaves every limb a digit but the lowest, which is between -38 and 65573 |
| Field25519.ThirdPass | src/netnacl/src/tweetnacl.c:301-303 | a third pass makes every limb a digit and keeps the number |
| Field25519.MulGf | src/netnacl/src/tweetnacl.c:355-364 | limbs below 2^26 give the field product, again within the tight bounds, and no 64-bit overflow |
| Field25519.Sel25519 | src/netnacl/src/tweetnacl.c:286-294 | the masked exclusive-or exchange swaps the two vectors for b = 1 and keeps them for b = 0 |
| Field25519.Pack25519 | src/netnacl/src/tweetnacl.c:296-319 | any limbs below 2^62 are encoded as the 32 little-endian bytes of the residue in 0 to p-1 |
| Field25519.PackUnpack | src/netnacl/src/tweetnacl.c:296-341 | packing after unpacking is the identity on every canonical encoding |
| Field25519.InvExponentIs | src/netnacl/src/tweetnacl.c:376-379 | squaring 254 times and multiplying except at 2 and 4 reaches the exponent p-2 |
| Field25519.Inv25519 | src/netnacl/src/tweetnacl.c:371-381 | the loop on limbs computes that power of its argument, with the bounds kept at every step |
| ScalarMult.EagerStep | src/netnacl/src/tweetnacl.c:411-432 | swapping before and after the formulas in every step is the standard's single swap on a changed bit |
| ScalarMult.LadderStep | src/netnacl/src/tweetnacl.c:410-432 | one step on limbs is one step of the field ladder, and the tight bounds hold again afterwards |
| ScalarMult.BitOfBytes | src/netnacl/src/tweetnacl.c:410 | the bit read with shift and mask from byte i/8 is bit i of the number the bytes encode |
| ScalarMult.CryptoScalarmult | src/netnacl/src/tweetnacl.c:395-444 | for every scalar and every point, the bytes of the X25519 function of RFC 7748: clamping, ladder, inversion, canonical packing |
| X25519Laws.ScalarIs | src/netnacl/src/tweetnacl.c:400-402 | the clamped scalar is 2^254 plus the low 254 bits of the number without its last three, for every 32 bytes |
| X25519Laws.ScalarRange | src/netnacl/src/tweetnacl.c:400-402 | so it is a multiple of eight from 2^254 to below 2^255 |
| X25519Laws.ClampedBitsDoNotMatter | src/netnacl/src/tweetnacl.c:400-402 | secret keys that agree in the other bits give the same result for every point |
| X25519Laws.CoordinateIs | src/netnacl/src/tweetnacl.c:336-341 | the coordinate read is the number of the 32 bytes modulo 2^255 |
| X25519Laws.NineIsNine | src/netnacl/src/tweetnacl.c:15 | the base point has coordinate 9 |
| X25519Laws.FormulasAre | src/netnacl/src/tweetnacl.c:413-430 | one step doubles the first point of the Montgomery curve with coefficient 486662 and adds the two, as polynomials over the field |
| X25519Laws.LadderIs | src/netnacl/src/tweetnacl.c:409-433 | after the bits from t up, the ladder holds the multiple that those bits spell, and the next one |
| X25519Laws.X25519Is | src/netnacl/src/tweetnacl.c:395-444 | the result is the scalar-fold multiple of the point, computed by doubling and differential addition alone, with its coordinate divided by the power p-2 |
| SalsaCore.L32Low | src/netnacl/src/tweetnacl.c:26 | whatever stands above bit 31, the low 32 bits of the shift are the 32-bit rotation |
| SalsaCore.Rounds | src/netnacl/src/tweetnacl.c:86-96 | twenty turning column rounds on words of any width from 32 bits are ten double rounds on the low 32 bits |
| Salsa20Spec.TurningIsDouble | src/netnacl/src/tweetnacl.c:86-96 | two column rounds, each followed by a transposition, are one column and one row round |
| SalsaCore.CryptoCoreSalsa20 | src/netnacl/src/tweetnacl.c:72-116 | the output is the Salsa20 expansion of key and input block |
| SalsaCore.CryptoCoreHSalsa20 | src/netnacl/src/tweetnacl.c:98-122 | the output is HSalsa20, although the code subtracts again what it has just added |
| Salsa20Vectors.QuarterDense | src/netnacl/src/tweetnacl.c:86-93 | the quarter-round example of section 3 of the Salsa20 specification |
| Salsa20Vectors.RowVector | src/netnacl/src/tweetnacl.c:86-96 | the row-round example of section 4 |
| Salsa20Vectors.ColumnVector | src/netnacl/src/tweetnacl.c:86-96 | the column-round example of section 5 |
| Salsa20Vectors.BlockVector | src/netnacl/src/tweetnacl.c:72-116 | the whole block of the example in section 9, through ten double rounds and the feed-forward |
| Salsa20Vectors.InputLayout | src/netnacl/src/tweetnacl.c:77-82 | the input block is the constant, the two halves of the key and the block input, in the places of section 9, for all inputs |
| Salsa20Vectors.HSalsaBesideSalsa | src/netnacl/src/tweetnacl.c:98-116 | HSalsa20 is Salsa20 without the feed-forward, word by word, for all inputs |
| Salsa20Machine.MachineQuarter | src/netnacl/src/tweetnacl.c:86-93 | a quarter-round on 32-bit machine words is the specification's, for all words |
| SecretBox.NextCounter | src/netnacl/src/tweetnacl.c:136-141 | the carried counter bytes go from the little-endian block number i to i + 1, modulo 2^64 |
| SecretBox.CryptoStreamSalsa20Xor | src/netnacl/src/tweetnacl.c:126-151 | byte i of the output is byte i of the message xor byte i%64 of block i/64, for every length, in place or not, and for no message at all |
| SecretBox.CryptoStream | src/netnacl/src/tweetnacl.c:158-163 | the XSalsa20 keystream of any length is written at the given place and nothing else changes |
| SecretBox.CryptoStreamXor | src/netnacl/src/tweetnacl.c:165-170 | the message xor the XSalsa20 keystream, with the 24-byte nonce split between HSalsa20 and the stream |
| Salsa20Vectors.XStreamByte | src/netnacl/src/tweetnacl.c:158-170 | byte i of the stream is byte i%64 of the Salsa20 block under the derived key, the last eight nonce bytes and the number i/64 |
| Salsa20Vectors.SigmaIsText | src/netnacl/src/tweetnacl.c:124 | the constant is the text "expand 32-byte k" |
| StreamSpec.KeystreamPrefix | src/netnacl/src/tweetnacl.c:126-151 | a shorter keystream is a prefix of a longer one, which is why opening may begin with 32 bytes |
| StreamSpec.XorBytesTwice | src/netnacl/src/tweetnacl.c:165-170 | encrypting twice is the identity |
| SecretBox.Vn | src/netnacl/src/tweetnacl.c:55-60 | the comparison without branches answers 0 exactly for equal strings and -1 otherwise, on words of any width from 32 bits |
| SecretBox.CryptoSecretbox | src/netnacl/src/tweetnacl.c:246-254 | refuses fewer than 32 bytes and otherwise writes the box, although the tag overwrites half of its own key, in place or not |
| SecretBox.CryptoSecretboxOpen | src/netnacl/src/tweetnacl.c:256-266 | opens exactly when the tag matches, and then restores 32 zero bytes and the message; on failure nothing is written |
| StreamSpec.UnboxBox | src/netnacl/src/tweetnacl.c:246-266 | opening undoes boxing for every zero-padded message |
| StreamSpec.OpensExactly | src/netnacl/src/tweetnacl.c:246-266 | nothing else opens: a string opens to m exactly when m is zero-padded and the string is the box of m, its first sixteen bytes aside |
| StreamSpec.BoxIs | src/netnacl/src/tweetnacl.c:246-254 | what a box of a padded message consists of: sixteen zeros, the tag of the rest under the first 32 bytes of the stream, and the message under the other bytes |
| CryptoBox.CryptoBoxBeforenm | src/netnacl/src/tweetnacl.c:457-462 | the shared key is HSalsa20 of the X25519 secret |
| CryptoBox.KeysAgree | src/netnacl/src/netnacl.c:182-183 | both ends derive the same key, given that the secret commutes |
| Records.LengthSurvives | src/netnacl/src/netnacl.c:280 | the length is swapped once on each side and arrives unchanged between hosts of any byte order |
| NetNacl.Endpoint.Wrap | src/netnacl/src/netnacl.c:141-186 | at any interruption: what was sent is the next part of the one public key that matches the secret key, at most 32 peer bytes are taken, success means both are complete; NN_WANT_WRITE is answered exactly if the key is not all sent and the last write blocked, NN_WANT_READ exactly if it is sent, the peer's is not complete and the last read blocked, and NN_ERR exactly if the wire failed or ended there |
| NetNacl.WrapAnswer | src/netnacl/src/netnacl.c:147-186 | those conditions for each of the four answers, both ways |
| NetNacl.Endpoint.RecvHdr | src/netnacl/src/netnacl.c:258-283 | header bytes go on where they stopped, and the length is converted once, when the last one arrives |
| NetNacl.Endpoint.RecvCiphertext | src/netnacl/src/netnacl.c:285-310 | for any length in the header: the call stays inside `recv_ct` exactly when the length is at most 4128, and then box bytes go on where they stopped |
| NetNacl.Endpoint.DecryptCiphertext | src/netnacl/src/netnacl.c:312-327 | on a complete box: if it opens, its text is left without padding, and if not, everything stays as it was |
| NetNacl.Endpoint.CopyPlaintextToBuffer | src/netnacl/src/netnacl.c:329-352 | hands out the next part of the residue and clears everything for the next frame after the last byte |
| NetNacl.Endpoint.Recv | src/netnacl/src/netnacl.c:188-239 | whatever the peer sends: header and box go on where they stopped, a complete box is opened once, the next part of its text is handed out, no byte outside the caller's range changes, and the call stays inside the buffers exactly when no header asks for more than 4128 bytes; if the record is still incomplete, the answer is NN_WANT_READ, 0 or NN_ERR as the last read blocked, ended or failed, and a forged box is NN_ERR |
| NetNacl.Endpoint.RecvFrames | src/netnacl/src/netnacl.c:188-239 | on a stream of frames under the agreed key, wherever it is cut: the bytes returned are taken off the text owed |
| AnyPeer.ReadBehind | src/netnacl/src/netnacl.c:329-352 | the reader of a whole stream goes on behind complete records as if they had not been there |
| AnyPeer.FramesReadBack | src/netnacl/src/netnacl.c:188-256 | reading back what a sender has framed gives the texts, for any frames that have one |
| AnyPeer.OutReads | src/netnacl/src/netnacl.c:211-228 | one call's opening and handing out keeps the receiver's fields in agreement with that reader of the bytes taken |
| AnyPeer.AllRead | src/netnacl/src/netnacl.c:188-239 | handed out and residue together are what the reader finds in the bytes taken |
| AnyPeer.Listen | src/netnacl/src/netnacl.c:188-239 | for any peer, any stream, any fragmentation and any number of calls: that agreement, what was handed out is a prefix of what the reader finds in the whole stream, and no call leaves a buffer exactly if the reader meets no header above 4128 |
| AnyPeer.TooLongHeader | src/netnacl/src/netnacl.c:287-290 | the shortest header that asks for more than `recv_ct` holds |
| NetNacl.Endpoint.EncryptPlaintext | src/netnacl/src/netnacl.c:354-374 | the send buffer holds the encoding of a frame with the first bytes of the caller's buffer, at most 4096 |
| NetNacl.Endpoint.Send | src/netnacl/src/netnacl.c:241-256 | what is written and what remains are the frame in flight, or a new one if there was none; a count is returned exactly when all of it has gone, and otherwise NN_WANT_WRITE if the last write blocked and NN_ERR if not |
| Receiving.DecryptFollows | src/netnacl/src/netnacl.c:312-327 | a complete frame opens, and to the text the sender framed |
| LinkSpec.SendKeepsReceiver | src/netnacl/src/netnacl.c:354-404 | a step of the sender, at any point of any frame, leaves the receiver in step |
| LinkSpec.KeyComplete | src/netnacl/src/netnacl.c:163-180 | the first 32 bytes are the peer's whole key and the rest is frames, so no record byte is eaten |
| LinkSpec.DeliveredIsPrefix | src/netnacl/src/netnacl.c:188-256 | what was returned by receiving is a prefix of what sending reported |
| LinkSpec.Account | src/netnacl/src/netnacl.c:188-256 | what sending reported is what receiving returned, then the residue, then the texts of the complete frames not yet opened |
| Link.WrapStep | src/netnacl/src/netnacl.c:141-186 | a call of the key exchange on either side keeps both directions in step, and two finished sides hold the same key |
| Link.Run | src/netnacl/src/netnacl.c:141-404 | after every schedule of calls on two endpoints and every fragmentation: both directions are in step with the flows returned, those flows are what the two applications sent and got, and the account holds in both directions |
| EventRows.AddRefines | src/event.c:56-71 | filling the first hole or a new last slot is a map update, and a new slot is taken only when there is no hole |
| EventRows.ModifyRefines | src/event.c:80-89 | rewriting a slot changes the mask of one key and nothing else |
| EventRows.RemoveRefines | src/event.c:97-114 | blanking a slot, and giving up the last one, removes one key |
| Events.EventManager.Add | src/event.c:38-74 | refuses exactly bad arguments, a duplicate and a full table, and otherwise is the map update |
| Events.EventManager.Modify | src/event.c:76-92 | succeeds exactly for a present descriptor, and a poll result from before is forgotten |
| Events.EventManager.Remove | src/event.c:94-117 | succeeds exactly for a present descriptor and removes it |
| Events.EventManager.Pass | src/event.c:120-146 | `poll` reports on the rows of the table; whatever callbacks then add, change or remove: a callback is called only for a registration that nothing happened to earlier in the pass, each call is in the trace with its descriptor, event, callback and data, in slot order, and a completed pass has called or seen changed every registration reported on |
| Events.DecodeTests | src/event.c:176-178 | the flags that a callback looks at are the bits of `revents` with the values of POLLIN, POLLOUT, POLLERR or POLLHUP, and POLLNVAL |
| Bufs.BufSend | src/buf.c:34-69 | what the side takes is the next part of the buffer, once and in order, success means that all of it was taken, a frame in flight always carries the next bytes of the buffer, and any other answer is what the last write on the socket says: it would block, it was reset, or it failed |
| Bufs.BufRecv | src/buf.c:85-125 | what the side gave stands in the buffer in order, also when the side then ends or fails; PROXY_DISCONNECT is answered only if the last read met the end and the stream has been read to its end (or a record without a text came), PROXY_WOULD_BLOCK exactly for a read that blocked with nothing in the buffer, and PROXY_ERR for a failure |
| Bufs.SendSome | src/buf.c:40-59 | one turn of the loop, with the outcomes told apart by the last write, and a refusal on a closed side, which is an error if the side is plain |
| Bufs.SendOnce | src/netnacl/src/netnacl.c:241-256 | the count returned is the length of the frame that has just left, and that frame is the one made for these bytes |
| Bufs.Net.Proceed | src/proxy.c:367-377 | the key exchange of a side goes on, keeps its history, is finished exactly on success, and otherwise says which direction blocked or failed |
| Proxy.CloseConnection | src/proxy.c:535-556 | a connection that has not been freed leaves the table on both sides, is freed, and its history still adds up |
| Proxy.HandleRecv | src/proxy.c:439-493 | nothing while data waits for the other side; otherwise one read, whose answer decides exactly what becomes of the table and the connection, which stays in order or is closed; when it ends because the side ended with nothing pending, the other side has taken all that it sent |
| Proxy.HandleSend | src/proxy.c:495-533 | likewise for one write; when it ends because the other side had left, this side has taken all that the other sent |
| Proxy.RecvdMeans | src/proxy.c:439-493 | receiving by outcomes on the wire: a silent side is waited for, bytes read are passed on, a failure closes, an end closes after the last byte, and bytes with nobody to go to close |
| Proxy.SentMeans | src/proxy.c:495-533 | sending likewise: a full wire is waited for, an emptied buffer asks for reading again or carries out the other side's end, a reset or failure closes |
| Proxy.OnReady | src/proxy.c:423-436 | what is reported readable is received, then what is reported writable is sent unless receiving ended it, and the answer and the new state are those of the two |
| Proxy.ReadinessServed | src/proxy.c:423-436 | no reported readiness is ignored, none is invented, and an orderly end is not passed on as an error |
| Proxy.ThenSend | src/proxy.c:427-430 | sending after receiving, also on a side that receiving has just closed, leaves a connection in order or a closed one; if the closed side is plain, the answer is PROXY_ERR and the connection is closed and freed |
| Handshakes.DoHandshake | src/proxy.c:344-390 | NN_WANT_READ and NN_WANT_WRITE leave an entry that asks for exactly that direction, success leaves one for data whose mask fits the buffer, and they are answered as the last outcome on the socket says; no other entry changes, and on failure none does |
| Handshakes.HandshakeOn | src/proxy.c:306-342 | trouble on the descriptor or a failed exchange closes the connection, and otherwise its entry is the one that the progress asks for |
| Handshakes.DataOn | src/proxy.c:392-437 | a closed descriptor touches nothing, trouble closes the connection, and otherwise it is served |
| Handshakes.FirstIsNext | src/proxy.c:275-296 | the first entry of a side asks for what its exchange asks for before anything has moved |
| Handshakes.AddConnectionEvents | src/proxy.c:270-304 | both sides are registered and the count is 2, or the table is as it was; it fails exactly when two more do not fit |
| Lifecycle.PendingConnect | src/proxy.c:227-268 | decided by the event and the socket's answer, exactly: without an event the connection waits on, a closed descriptor or a refusal closes it, an unknown answer closes it with PROXY_ERR, and a made connection runs with both sides registered, or is closed if the table has no room |
| Lifecycle.Fire | src/proxy.c:227-268 | every registered callback, called with its own descriptor and data, leaves its connection in order or closed, freed and out of the table |
| Server.World.Dispatch | src/proxy.c:392-437 | a callback of one connection leaves every other one exactly as it was, in memory, history and table, and the listener's entry too |
| Server.World.AcceptCallback | src/proxy.c:120-225 | trouble on the listener or a failure to accept is an error, and exactly then; one new connection comes in exactly if a client and a server socket came and the table has room, with its encryption as configured and its entries as the connecting state asks, beside the others, whose entries stay as they were |
| Server.World.Pass | src/event.c:120-146 | a pass with the proxy's own callbacks over what `poll` reports on the table: every callback notes its call, so the trace grows by one call for each due slot, with its descriptor, event and data; every entry belongs to a connection that has not been freed, freed connections are never touched again, nothing is served twice or after it was changed, and a completed pass has called or seen changed all that was reported on |
| Server.EveryConnection | src/proxy.c:392-533 | in every reachable state, for every connection there ever was: read equals delivered then buffered, both ways; an orderly end means that a side ended and full delivery; a plain side that ended has been read to the end of its stream; no side is left while it has not ended; POLLOUT is asked for exactly when there is something to send |
| Shutdown.CountTwo | src/event.c:148-163 | a connection stands in one slot for each of its registered descriptors |
| Shutdown.StartsBalanced | src/proxy.c:287-301 | in every reachable state the reference count fits the slots: 2 for two, 0 for a pending one, 2 for the one slot of a half-closed connection |
| Shutdown.Teardown | src/event.c:148-163 | no connection is touched after it was freed, and exactly the half-closed ones are left unfreed |
| Shutdown.ProxyRun | src/proxy.c:80-118 | that outcome for every run from the empty table, and a successful run has made every pass |
| Shutdown.HalfClosedIsNeverFreed | src/proxy.c:468-476 | a half-closed connection comes about and is still allocated after the teardown |
| LinkSpec.GrewKeeps | src/buf.c:39-61 | any number of new frames and written bytes leaves the reader in step |
| LinkSpec.HeardKeeps | src/buf.c:90-120 | any amount of reading leaves the reader in step with the writer |
| Tunnel.SendInner | src/buf.c:34-69 | sending a buffer into the tunnel keeps both directions between the two proxies in step, also when the far side has been closed |
| Tunnel.RecvInner | src/buf.c:85-125 | reading a buffer from the tunnel does so too |
| Tunnel.AgreeInner | src/netnacl/src/netnacl.c:141-186 | and so does every call of the key exchange, with equal keys in the end |
| Tunnel.CloseInner | src/proxy.c:469-476 | closing an inner side at any moment does too: what is on the wire can still be read, and no more comes |
| Tunnel.StationIsSound | src/proxy.c:439-533 | what a run of two proxies keeps about each of them is the conservation and retry invariant that the callbacks keep |
| Tunnel.BytesInAreBytesOut | src/proxy.c:439-533 | what was read from the client is what the server's socket was given, then the second buffer, the text the tunnel still owes, and the rest of the first buffer, whichever sides have been closed |
| Tunnel.Run | src/buf.c:34-125 | for every schedule of key exchange calls, buffer loops and closings of single sides on two joined proxies, and every fragmentation: the server is given a prefix of what the client has to send, and the client of what the server has to send |

## Left out

- Sockets, `poll`, `getaddrinfo`, `fcntl` and signals: every outcome is possible, errno is part of the outcome, and the run flag is a number of turns.
- `src/network.c`: connecting to the server is an outcome of accepting; the cached address and its timer are not part of this model.
- Server.World.AcceptCallback: of `handle_accept`, only the outcomes; sockets that it leaves open when the table is full are not tracked. As in the code, any failure of `accept` ends the loop, because the three errors at `src/proxy.c:180` are joined with "and".
- Bufs.SendSome: where an encrypted side has no context any more the error code comes from an errno of an earlier call, which is any value here. Models a build without assertions; with them the null context of a closed encrypted side stops the program at `src/netnacl/src/netnacl.c:242`. The size and position assertions of `src/buf.c` are preconditions here, and every caller meets them.
- NetNacl.Endpoint.RecvCiphertext: what happens once `recv` has been asked for more than `recv_ct` holds is not modelled; the result says that it would be.
- Bufs.Net.Proceed: the peer that follows is one that sends frames under the agreed key, so in `Server` no box is forged; what the receiver does with any other stream is the subject of `AnyPeer`.
- Tunnel.Run: acts are calls of the buffer loops and of the key exchange and closings, in any order and past accepting, whether or not a callback would make them; which of them the callbacks make, and the event table, are the subject of `Server`.
- ScalarMult.CryptoScalarmult: the copies of b and d to x[48] and x[64] are dead and not made; slices of x are separate arrays.
- Poly1305.CryptoOnetimeauth: `& 255`, `>> 8` and the like are remainder and quotient; the sign mask and the exclusive-or choice are bitwise.
- SecretBox.CryptoStreamSalsa20Xor: lengths are natural numbers; the counter still wraps at 2^64 blocks.
- Memory: freeing is a flag on the connection, and a failed allocation does not happen.
- `randombytes`: arbitrary bytes.
- Secrecy, unforgeability and timing are not stated. Nor is the group law of the curve: `X25519Laws` says which multiple is computed by which formulas, not that the formulas form a group, so `CryptoBox.SecretsCommute` stays a hypothesis.
- Half-shutdown of a socket and liveness: how soon a residue or a buffer is forwarded is not promised by the code.
- SHA-512, Ed25519, `modL` and `pow2523`: not reached by the proxy.
- `main.c`, logging, the build and the Python tests: no core logic.
