/**
Composite public keys and the cryptographic primitives.  Signatures, SHA-256, node
identifiers and key parsing are arbitrary functions: every theorem of the project holds
for all of them, and none assumes that a hash is injective.
 */
module Keys {
  import opened Base

  /** Size of the ML-KEM-1024 half of a composite public key. */
  const KEM_PUBLIC_KEY_SIZE := 1568

  datatype CompositeKey = CompositeKey(kem: Bytes, sign: Bytes)

  type PublicKey = p: CompositeKey | |p.kem| == KEM_PUBLIC_KEY_SIZE && p.sign != []
    witness CompositeKey(Zeros(KEM_PUBLIC_KEY_SIZE), [0])

  type NodeID = Digest

  const ZERO_NODE_ID: NodeID := Zeros(32)

  datatype Crypto = Crypto(
    verify: (PublicKey, Bytes, Bytes) -> bool,
    sha256: Bytes -> Digest,
    nodeID: PublicKey -> Option<NodeID>,
    parses: (Bytes, Bytes) -> bool)

  /** Two distinct keys with one node identifier: a collision of the identifier hash. */
  ghost predicate NodeIDCollision(k: Crypto, a: PublicKey, b: PublicKey) {
    a != b && k.nodeID(a).Some? && k.nodeID(a) == k.nodeID(b)
  }

  /** Two distinct inputs with one SHA-256 value. */
  ghost predicate HashCollision(k: Crypto, a: Bytes, b: Bytes) {
    a != b && k.sha256(a) == k.sha256(b)
  }

  function MarshalPubKey(p: PublicKey): (b: Bytes)
    ensures KEM_PUBLIC_KEY_SIZE < |b|
  {
    p.kem + p.sign
  }

  lemma MarshalPubKeyInjective(p: PublicKey, q: PublicKey)
    requires MarshalPubKey(p) == MarshalPubKey(q)
    ensures p == q
  {
    assert p.kem == MarshalPubKey(p)[..KEM_PUBLIC_KEY_SIZE] && p.sign == MarshalPubKey(p)[KEM_PUBLIC_KEY_SIZE..];
    assert q.kem == MarshalPubKey(q)[..KEM_PUBLIC_KEY_SIZE] && q.sign == MarshalPubKey(q)[KEM_PUBLIC_KEY_SIZE..];
  }

  /** Key parsing of the crypto library: the two halves are checked, then kept as they are. */
  function ParsePublicKey(k: Crypto, kem: Bytes, sign: Bytes): Option<PublicKey> {
    if |kem| == KEM_PUBLIC_KEY_SIZE && sign != [] && k.parses(kem, sign)
    then Some(CompositeKey(kem, sign))
    else None
  }

  function SplitAndParsePubKey(k: Crypto, b: Bytes): Option<PublicKey> {
    if |b| <= KEM_PUBLIC_KEY_SIZE then None
    else ParsePublicKey(k, b[..KEM_PUBLIC_KEY_SIZE], b[KEM_PUBLIC_KEY_SIZE..])
  }

  /** The library accepts the key's own serialisation. */
  predicate Reparses(k: Crypto, p: PublicKey) {
    k.parses(p.kem, p.sign)
  }

  /** Splitting a serialised key restores it. */
  lemma SplitMarshalRoundTrip(k: Crypto, p: PublicKey)
    ensures SplitAndParsePubKey(k, MarshalPubKey(p)) == if Reparses(k, p) then Some(p) else None
  {
    assert MarshalPubKey(p)[..KEM_PUBLIC_KEY_SIZE] == p.kem && MarshalPubKey(p)[KEM_PUBLIC_KEY_SIZE..] == p.sign;
  }

  /** What parses is the serialisation of the key it yields. */
  lemma ParsedIsSerialised(k: Crypto, b: Bytes)
    ensures SplitAndParsePubKey(k, b).Some? ==>
      Reparses(k, SplitAndParsePubKey(k, b).value) && MarshalPubKey(SplitAndParsePubKey(k, b).value) == b
  {
  }

  function HexDigit(d: nat): Byte
    requires d < 16
  {
    if d < 10 then 48 + d else 87 + d
  }

  function Hex(b: Bytes): (h: Bytes)
    ensures |h| == 2 * |b|
    ensures forall i :: 0 <= i < |h| ==> h[i] < 0x80
  {
    if b == [] then [] else [HexDigit(b[0] / 16), HexDigit(b[0] % 16)] + Hex(b[1..])
  }

  lemma HexDigitReads(d: nat)
    requires d < 16
    ensures HexDigit(d) == "0123456789abcdef"[d] as int
  {
  }

  lemma HexShift(b: Bytes, j: nat)
    requires b != [] && j < 2 * |b| - 2
    ensures Hex(b)[j + 2] == Hex(b[1..])[j]
  {
    assert Hex(b) == [HexDigit(b[0] / 16), HexDigit(b[0] % 16)] + Hex(b[1..]);
  }

  /** Two lower-case digits for each byte, the high half first. */
  lemma {:induction false} HexReads(b: Bytes, i: nat)
    requires i < |b|
    ensures Hex(b)[2 * i] == "0123456789abcdef"[b[i] / 16] as int
    ensures Hex(b)[2 * i + 1] == "0123456789abcdef"[b[i] % 16] as int
  {
    if i == 0 {
      HexDigitReads(b[0] / 16);
      HexDigitReads(b[0] % 16);
    } else {
      HexReads(b[1..], i - 1);
      HexShift(b, 2 * (i - 1));
      HexShift(b, 2 * (i - 1) + 1);
    }
  }

  /** The hash under which a CA is filed: hex of SHA-256 of its signing key. */
  function CAHash(k: Crypto, p: PublicKey): (h: Bytes)
    ensures |h| == 64
  {
    Hex(k.sha256(p.sign))
  }

  /** A CA is filed under the hex digits of the hash of its signing key; the other half of the key plays no part. */
  lemma CAHashReads(k: Crypto, p: PublicKey, i: nat)
    requires i < 32
    ensures var digits := "0123456789abcdef";
            && CAHash(k, p)[2 * i] == digits[k.sha256(p.sign)[i] / 16] as int
            && CAHash(k, p)[2 * i + 1] == digits[k.sha256(p.sign)[i] % 16] as int
  {
    HexReads(k.sha256(p.sign), i);
  }
}
