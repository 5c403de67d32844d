/**
What the canonical bytes and the frames are, read with the wire-format decoder: which field
holds what, which frames are accepted, and what a reader guarantees of what it returns.
 */
module WireForms {
  import opened Base
  import opened Wire
  import opened Keys
  import opened Canonical
  import opened TrustStore
  import opened PeerVerification
  import opened Handshake

  // ----- Canonical messages -----

  /** A certificate is a message with its seven fields under the numbers 1 to 7. */
  lemma CertDecodes(c: CertBody)
    requires c.version < TWO_64 && |CertBytes(c)| < TWO_64
    ensures var fs := DecodeFields(CertBytes(c));
            && fs.Some?
            && VarintOf(fs.value, 1) == c.version
            && BytesOf(fs.value, 2) == MarshalPubKey(c.pub) && BytesOf(fs.value, 3) == c.issuer
            && WrapInt64(VarintOf(fs.value, 4)) == c.validFrom && WrapInt64(VarintOf(fs.value, 5)) == c.validUntil
            && BytesOf(fs.value, 6) == c.serial && BytesOf(fs.value, 7) == c.nonce
  {
    CertSlotsSmall(c);
    MessageRoundTrip(CertSlots(c));
    CertSlotValues(c);
    SlotRoundTrip(CertSlots(c), 0);
  }

  /** A bundle is a message whose field 1 repeats the encodings in ascending order, and nothing else. */
  lemma BundleDecodes(cs: seq<CertBody>)
    requires |BundleBytes(cs)| < TWO_64
    ensures var fs := DecodeFields(BundleBytes(cs));
            && fs.Some? && |fs.value| == |cs|
            && Sorted(AllBytes(fs.value, 1))
            && multiset(AllBytes(fs.value, 1)) == multiset(MapSeq(CertBytes, cs))
  {
    var encs := Sort(MapSeq(CertBytes, cs));
    SortSorts(MapSeq(CertBytes, cs));
    EmptyPermutation(encs, MapSeq(CertBytes, cs));
    FieldsRoundTrip(Repeated(1, encs));
    AllBytesRepeated(1, encs, 1);
  }

  lemma ExporterSlotsSmall(p: DelegationProof)
    ensures SmallSlots(ExporterSlots(p))
  {
    Uint64RoundTrip(p.notBefore);
    Uint64RoundTrip(p.notAfter);
  }

  /** The exporter context holds every field of the proof under its number, except the exporter binding, number 2. */
  lemma ExporterContextDecodes(p: DelegationProof)
    requires |CanonicalDelegationProofForExporter(p)| < TWO_64
    ensures var fs := DecodeFields(CanonicalDelegationProofForExporter(p));
            && fs.Some? && (forall f :: f in fs.value ==> f.num != 2)
            && BytesOf(fs.value, 1) == p.tlsCertPubKeyHash && BytesOf(fs.value, 3) == p.tlsTranscriptHash
            && BytesOf(fs.value, 4) == p.x509Fingerprint && BytesOf(fs.value, 5) == p.nodeCertBundleHash
            && WrapInt64(VarintOf(fs.value, 6)) == p.notBefore && WrapInt64(VarintOf(fs.value, 7)) == p.notAfter
  {
    var s := ExporterSlots(p);
    ExporterSlotsSmall(p);
    MessageRoundTrip(s);
    forall f | f in Present(s)
      ensures f.num != 2
    {
      PresentSubset(s, f);
    }
    SlotRoundTrip(s, 0);
    SlotRoundTrip(s, 1);
    SlotRoundTrip(s, 2);
    SlotRoundTrip(s, 3);
    SlotRoundTrip(s, 4);
    SlotRoundTrip(s, 5);
    Uint64RoundTrip(p.notBefore);
    Uint64RoundTrip(p.notAfter);
  }

  /** What is signed: the length of the context, the context of the purpose, and the canonical bytes. */
  lemma SignedMessages(c: CertBody, pub: PublicKey, proof: DelegationProof)
    ensures AdmissionMessage(c) == [0, 0, 0, 27] + Ascii("OUROBOROS_NODE_ADMISSION_V1") + CertBytes(c)
    ensures AnchorMessage(pub) == [0, 0, 0, 27] + Ascii("OUROBOROS_USER_CA_ANCHOR_V1") + pub.kem + pub.sign
    ensures DelegationMessage(proof) ==
      [0, 0, 0, 28] + Ascii("OUROBOROS_NODE_DELEGATION_V1") + CanonicalDelegationProof(proof)
  {
    assert |Ascii("OUROBOROS_NODE_ADMISSION_V1")| == |Ascii("OUROBOROS_USER_CA_ANCHOR_V1")| == 27;
    assert |Ascii("OUROBOROS_NODE_DELEGATION_V1")| == 28;
    assert BigEndian32(27) == [0, 0, 0, 27] && BigEndian32(28) == [0, 0, 0, 28];
    assert AdmissionFields(c) == CertSlots(c);
    var anchor := [0, 0, 0, 27] + Ascii("OUROBOROS_USER_CA_ANCHOR_V1");
    assert anchor + (pub.kem + pub.sign) == anchor + pub.kem + pub.sign;
  }

  // ----- Frames -----

  /** A frame is read exactly when the stream starts with a length from 1 to 1 MiB, big-endian, and that many bytes. */
  lemma ReadFrameIff(stream: Bytes, payload: Bytes)
    ensures ReadFrame(stream) == Some(payload) <==>
      && 1 <= |payload| <= 1_048_576
      && 4 + |payload| <= |stream|
      && stream[..4] == BigEndian32(|payload|) && stream[4..4 + |payload|] == payload
  {
    if |payload| <= 1_048_576 {
      BigEndian32Value(|payload|);
      if |stream| >= 4 && ReadBigEndian32(stream[..4]) == |payload| {
        ReadBigEndian32Injective(stream[..4], BigEndian32(|payload|));
      }
    }
  }

  // ----- What a reader returns -----

  lemma {:induction false} DecodedCertsConsistent(k: Crypto, bs: seq<Bytes>)
    ensures DecodeCerts(k, bs).Some? ==>
      |DecodeCerts(k, bs).value| == |bs| && CertsConsistent(k, DecodeCerts(k, bs).value)
    decreases |bs|
  {
    if bs != [] {
      DecodedCertsConsistent(k, bs[1..]);
    }
  }

  /**
  Whatever bytes arrive, a handshake that is read has certificates of version 1 with the
  identifiers of their own keys, a proof, and the bindings of the reader's connection.
   */
  lemma ReadIsConsistent(k: Crypto, stream: Bytes, conn: Connection)
    ensures var hs := ReadAuthHandshake(k, stream, conn);
            hs.Some? ==>
              && CertsConsistent(k, hs.value.certs) && hs.value.proof.Some?
              && hs.value.tls.certPubKeyHash == conn.certPubKeyHash
              && hs.value.tls.x509Fingerprint == conn.x509Fingerprint
              && Some(hs.value.tls.transcriptHash) ==
                 conn.exporter(Ascii("EXPORTER_OUROBOROS_TRANSCRIPT_BINDING_V1"), [], 32)
              && Some(hs.value.tls.exporterBinding) ==
                 conn.exporter(Ascii("EXPORTER_OUROBOROS_NODE_DELEGATION_V1"),
                               CanonicalDelegationProofForExporter(hs.value.proof.value), 32)
  {
    var payload := ReadFrame(stream);
    if payload.Some? && DecodeFields(payload.value).Some? {
      DecodedCertsConsistent(k, AllBytes(DecodeFields(payload.value).value, 1));
    }
  }
}
