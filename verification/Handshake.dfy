/**
The prover's side of peer authentication (internal/auth/delegation/sign_delegation.go)
and the wire protocol between prover and verifier (internal/transport/auth_handshake.go),
with the end-to-end theorem that an honest handshake is accepted exactly while its proof
is fresh.
 */
module Handshake {
  import opened Base
  import opened Keys
  import opened Wire
  import opened Canonical
  import opened TrustStore
  import opened TrustSnapshot
  import opened PeerVerification

  // ----- Signing a delegation -----

  const EXPORTER_LABEL: Bytes := Ascii("EXPORTER_OUROBOROS_NODE_DELEGATION_V1")
  const TRANSCRIPT_LABEL: Bytes := Ascii("EXPORTER_OUROBOROS_TRANSCRIPT_BINDING_V1")

  /** Keying-material export of a TLS session: label, context and length. */
  type Exporter = (Bytes, Bytes, nat) -> Option<Bytes>

  /** The digests of the session certificate that the peer sees during the TLS handshake. */
  datatype Session = Session(certPubKeyHash: Digest, x509Fingerprint: Digest)

  datatype Delegation = Delegation(proof: DelegationProof, sig: Bytes)

  /** The proof is built without its exporter value, exported over, and rebuilt with it. */
  function SignDelegation(k: Crypto, sign: Bytes -> Option<Bytes>, bodies: seq<CertBody>, session: Session,
                          exporter: Exporter, now: Int64)
    : Option<Delegation>
  {
    match CanonicalNodeCertBundle(bodies)
    case None => None
    case Some(bundle) =>
      match exporter(TRANSCRIPT_LABEL, [], BINDING_SIZE)
      case None => None
      case Some(transcript) =>
        var draft := DelegationProof(session.certPubKeyHash, [], transcript, session.x509Fingerprint, k.sha256(bundle),
                                     now, WrapInt64(now + MAX_DELEGATION_TTL));
        match exporter(EXPORTER_LABEL, CanonicalDelegationProofForExporter(draft), BINDING_SIZE)
        case None => None
        case Some(exported) =>
          var proof := draft.(tlsExporterBinding := exported);
          match sign(DelegationMessage(proof))
          case None => None
          case Some(sig) => Some(Delegation(proof, sig))
  }

  // ----- Messages -----

  const MAX_AUTH_MESSAGE_SIZE := 0x10_0000

  function AuthoritySlots(a: EmbeddedCA): seq<Field> {
    [ Field(1, LenValue(a.kind)), Field(2, LenValue(a.pubKEM)), Field(3, LenValue(a.pubSign)),
      Field(4, LenValue(a.anchorSig)), Field(5, LenValue(a.anchorAdmin)) ]
  }

  function AuthorityBytes(a: EmbeddedCA): Bytes {
    EncodeMessage(AuthoritySlots(a))
  }

  predicate AuthorityUtf8(a: EmbeddedCA) {
    ValidUtf8(a.kind) && ValidUtf8(a.anchorAdmin)
  }

  /** Everything a prover sends. */
  datatype AuthMessage = AuthMessage(
    bodies: seq<CertBody>,
    caSigs: seq<Bytes>,
    authorities: seq<EmbeddedCA>,
    proof: DelegationProof,
    delegationSig: Bytes)

  /** A length-delimited field that is omitted when empty. */
  function Singular(num: nat, b: Bytes): seq<Field> {
    if b == [] then [] else [Field(num, LenValue(b))]
  }

  /** The top-level fields, given the encodings of the nested messages. */
  function FieldsOf(certs: seq<Bytes>, sigs: seq<Bytes>, authorities: seq<Bytes>, proof: Bytes,
                    delegationSig: Bytes): seq<Field> {
    Repeated(1, certs)
    + (Repeated(2, sigs)
       + (Repeated(3, authorities) + ([Field(4, LenValue(proof))] + Singular(5, delegationSig))))
  }

  function AuthFields(m: AuthMessage): seq<Field> {
    FieldsOf(MapSeq(CertBytes, m.bodies), m.caSigs, MapSeq(AuthorityBytes, m.authorities),
             CanonicalDelegationProof(m.proof), m.delegationSig)
  }

  function AuthPayload(m: AuthMessage): Bytes {
    EncodeFields(AuthFields(m))
  }

  predicate AuthoritiesUtf8(authorities: seq<EmbeddedCA>) {
    forall i :: 0 <= i < |authorities| ==> AuthorityUtf8(authorities[i])
  }

  predicate AuthUtf8(m: AuthMessage) {
    IssuersUtf8(m.bodies) && AuthoritiesUtf8(m.authorities)
  }

  /** The bytes put on the stream: a length prefix and the payload, or nothing on an encoding error. */
  function WriteAuthHandshake(m: AuthMessage): Option<Bytes> {
    if !AuthUtf8(m) || |AuthPayload(m)| > MAX_AUTH_MESSAGE_SIZE then None
    else Some(BigEndian32(|AuthPayload(m)|) + AuthPayload(m))
  }

  /** Every occurrence of a string field is valid UTF-8, not only the one that is kept. */
  predicate TextValid(fs: seq<Field>, num: nat) {
    forall i :: 0 <= i < |fs| && fs[i].num == num && fs[i].value.LenValue? ==> ValidUtf8(fs[i].value.b)
  }

  /** Reading a certificate: the version on the wire is ignored and the node identifier is derived. */
  function DecodeCert(k: Crypto, b: Bytes): Option<NodeCert> {
    match DecodeFields(b)
    case None => None
    case Some(fs) =>
      if !TextValid(fs, 3) then None
      else
        match SplitAndParsePubKey(k, BytesOf(fs, 2))
        case None => None
        case Some(pub) =>
          match k.nodeID(pub)
          case None => None
          case Some(nid) =>
            Some(NodeCert(
              CertBody(DEFAULT_CERT_VERSION, pub, BytesOf(fs, 3), WrapInt64(VarintOf(fs, 4)),
                       WrapInt64(VarintOf(fs, 5)), BytesOf(fs, 6), BytesOf(fs, 7)),
              nid))
  }

  function DecodeAuthority(b: Bytes): Option<EmbeddedCA> {
    match DecodeFields(b)
    case None => None
    case Some(fs) =>
      if TextValid(fs, 1) && TextValid(fs, 5)
      then Some(EmbeddedCA(BytesOf(fs, 1), BytesOf(fs, 2), BytesOf(fs, 3), BytesOf(fs, 4), BytesOf(fs, 5)))
      else None
  }

  function DecodeProof(b: Bytes): Option<DelegationProof> {
    match DecodeFields(b)
    case None => None
    case Some(fs) =>
      Some(DelegationProof(BytesOf(fs, 1), BytesOf(fs, 2), BytesOf(fs, 3), BytesOf(fs, 4), BytesOf(fs, 5),
                           WrapInt64(VarintOf(fs, 6)), WrapInt64(VarintOf(fs, 7))))
  }

  function DecodeCerts(k: Crypto, bs: seq<Bytes>): Option<seq<Option<NodeCert>>>
    decreases |bs|
  {
    if bs == [] then Some([])
    else if DecodeCert(k, bs[0]).None? || DecodeCerts(k, bs[1..]).None? then None
    else Some([DecodeCert(k, bs[0])] + DecodeCerts(k, bs[1..]).value)
  }

  function DecodeAuthorities(bs: seq<Bytes>): Option<seq<EmbeddedCA>> {
    if bs == [] then Some([])
    else if DecodeAuthority(bs[0]).None? || DecodeAuthorities(bs[1..]).None? then None
    else Some([DecodeAuthority(bs[0]).value] + DecodeAuthorities(bs[1..]).value)
  }

  function Concat(bs: seq<Bytes>): Bytes {
    if bs == [] then [] else bs[0] + Concat(bs[1..])
  }

  /** Each of these byte strings is a message of its own. */
  predicate AllMessages(bs: seq<Bytes>) {
    forall i :: 0 <= i < |bs| ==> DecodeFields(bs[i]).Some?
  }

  /** Repeated occurrences of the embedded proof, each well formed, merge; an absent one reads as the zero proof. */
  function ReadProof(fs: seq<Field>): Option<DelegationProof> {
    if AllMessages(AllBytes(fs, 4)) then DecodeProof(Concat(AllBytes(fs, 4))) else None
  }

  /** What the verifier's TLS stack offers: digests of the peer's certificate and an exporter. */
  datatype Connection = Connection(certPubKeyHash: Bytes, x509Fingerprint: Bytes, exporter: Exporter)

  /** The payload of the first frame of the stream. */
  function ReadFrame(stream: Bytes): Option<Bytes> {
    if |stream| < 4 then None
    else
      var len := ReadBigEndian32(stream[..4]);
      if len == 0 || len > MAX_AUTH_MESSAGE_SIZE || |stream| < 4 + len then None
      else Some(stream[4..4 + len])
  }

  /** The bindings are derived from the verifier's own connection, never taken from the message. */
  function Bindings(conn: Connection, proof: DelegationProof): Option<TLSBindings> {
    match conn.exporter(TRANSCRIPT_LABEL, [], BINDING_SIZE)
    case None => None
    case Some(transcript) =>
      match conn.exporter(EXPORTER_LABEL, CanonicalDelegationProofForExporter(proof), BINDING_SIZE)
      case None => None
      case Some(exported) => Some(TLSBindings(conn.certPubKeyHash, exported, conn.x509Fingerprint, transcript))
  }

  function ReadFields(k: Crypto, fs: seq<Field>, conn: Connection): Option<PeerHandshake> {
    match DecodeCerts(k, AllBytes(fs, 1))
    case None => None
    case Some(certs) =>
      match DecodeAuthorities(AllBytes(fs, 3))
      case None => None
      case Some(authorities) =>
        match ReadProof(fs)
        case None => None
        case Some(proof) =>
          match Bindings(conn, proof)
          case None => None
          case Some(tls) => Some(PeerHandshake(certs, AllBytes(fs, 2), authorities, Some(proof), BytesOf(fs, 5), tls))
  }

  function ReadAuthHandshake(k: Crypto, stream: Bytes, conn: Connection): Option<PeerHandshake> {
    match ReadFrame(stream)
    case None => None
    case Some(payload) =>
      match DecodeFields(payload)
      case None => None
      case Some(fs) => ReadFields(k, fs, conn)
  }

  // ----- The loops that convert certificates and authorities -----

  function Followed<T>(done: seq<T>, rest: Option<seq<T>>): Option<seq<T>> {
    if rest.None? then None else Some(done + rest.value)
  }

  lemma FollowedUnits<T>(done: seq<T>, rest: Option<seq<T>>)
    ensures Followed([], rest) == rest && Followed(done, Some([])) == Some(done)
  {
    assert done + [] == done;
    if rest.Some? {
      assert [] + rest.value == rest.value;
    }
  }

  method DecodeCertsLoop(k: Crypto, bs: seq<Bytes>) returns (r: Option<seq<Option<NodeCert>>>)
    ensures r == DecodeCerts(k, bs)
  {
    var certs: seq<Option<NodeCert>> := [];
    FollowedUnits(certs, DecodeCerts(k, bs));
    assert bs[0..] == bs;
    for i := 0 to |bs|
      invariant Followed(certs, DecodeCerts(k, bs[i..])) == DecodeCerts(k, bs)
    {
      assert bs[i..][0] == bs[i] && bs[i..][1..] == bs[i + 1..];
      var c := DecodeCert(k, bs[i]);
      if c.None? {
        return None;
      }
      ghost var rest := DecodeCerts(k, bs[i + 1..]);
      if rest.Some? {
        Reassociate(certs, c, rest.value);
      }
      certs := certs + [c];
    }
    FollowedUnits(certs, None);
    return Some(certs);
  }

  method DecodeAuthoritiesLoop(bs: seq<Bytes>) returns (r: Option<seq<EmbeddedCA>>)
    ensures r == DecodeAuthorities(bs)
  {
    var authorities: seq<EmbeddedCA> := [];
    FollowedUnits(authorities, DecodeAuthorities(bs));
    assert bs[0..] == bs;
    for i := 0 to |bs|
      invariant Followed(authorities, DecodeAuthorities(bs[i..])) == DecodeAuthorities(bs)
    {
      assert bs[i..][0] == bs[i] && bs[i..][1..] == bs[i + 1..];
      var a := DecodeAuthority(bs[i]);
      if a.None? {
        return None;
      }
      ghost var rest := DecodeAuthorities(bs[i + 1..]);
      if rest.Some? {
        Reassociate(authorities, a.value, rest.value);
      }
      authorities := authorities + [a.value];
    }
    FollowedUnits(authorities, None);
    return Some(authorities);
  }

  /** Marshalling one authority fails when a string field is not valid UTF-8. */
  function MarshalAuthority(a: EmbeddedCA): Option<Bytes> {
    if AuthorityUtf8(a) then Some(AuthorityBytes(a)) else None
  }

  method EncodeAuthorities(authorities: seq<EmbeddedCA>) returns (r: Option<seq<Bytes>>)
    ensures r == if AuthoritiesUtf8(authorities) then Some(MapSeq(AuthorityBytes, authorities)) else None
  {
    var encs: seq<Bytes> := [];
    for i := 0 to |authorities|
      invariant |encs| == i
      invariant forall j :: 0 <= j < i ==> MarshalAuthority(authorities[j]) == Some(encs[j])
    {
      var enc := MarshalAuthority(authorities[i]);
      if enc.None? {
        return None;
      }
      encs := encs + [enc.value];
    }
    assert encs == MapSeq(AuthorityBytes, authorities);
    return Some(encs);
  }

  /** The writer: encode each certificate and each authority, then frame the message. */
  method WriteHandshake(m: AuthMessage) returns (r: Option<Bytes>)
    ensures r == WriteAuthHandshake(m)
  {
    var certs := EncodeCerts(m.bodies);
    var authorities := EncodeAuthorities(m.authorities);
    if certs.None? || authorities.None? {
      return None;
    }
    var payload := EncodeFields(FieldsOf(certs.value, m.caSigs, authorities.value, CanonicalDelegationProof(m.proof),
                                         m.delegationSig));
    if |payload| > MAX_AUTH_MESSAGE_SIZE {
      return None;
    }
    return Some(BigEndian32(|payload|) + payload);
  }

  /** The reader: one frame, its fields, the two conversion loops, then the locally derived bindings. */
  method ReadHandshake(k: Crypto, stream: Bytes, conn: Connection) returns (r: Option<PeerHandshake>)
    ensures r == ReadAuthHandshake(k, stream, conn)
  {
    var payload := ReadFrame(stream);
    if payload.None? {
      return None;
    }
    var fs := DecodeFields(payload.value);
    if fs.None? {
      return None;
    }
    var certs := DecodeCertsLoop(k, AllBytes(fs.value, 1));
    if certs.None? {
      return None;
    }
    var authorities := DecodeAuthoritiesLoop(AllBytes(fs.value, 3));
    var proof := ReadProof(fs.value);
    if authorities.None? || proof.None? {
      return None;
    }
    var tls := Bindings(conn, proof.value);
    if tls.None? {
      return None;
    }
    return Some(PeerHandshake(certs.value, AllBytes(fs.value, 2), authorities.value, proof, BytesOf(fs.value, 5),
                              tls.value));
  }

  // ----- Round trips -----

  lemma {:induction false} FieldFits(fs: seq<Field>, i: nat)
    requires i < |fs| && fs[i].value.LenValue?
    ensures |fs[i].value.b| <= |EncodeFields(fs)|
  {
    assert |EncodeFields(fs)| == |EncodeField(fs[0])| + |EncodeFields(fs[1..])|;
    if i > 0 {
      assert fs[1..][i - 1] == fs[i];
      FieldFits(fs[1..], i - 1);
    }
  }

  predicate SmallField(f: Field) {
    1 <= f.num <= 7 && (f.value.VarintValue? ==> f.value.n < TWO_64)
  }

  /** A list of fields that encodes to less than 2^64 bytes decodes to itself. */
  lemma FieldsRoundTrip(fs: seq<Field>)
    requires |EncodeFields(fs)| < TWO_64
    requires forall f :: f in fs ==> SmallField(f)
    ensures DecodeFields(EncodeFields(fs)) == Some(fs)
  {
    forall i | 0 <= i < |fs|
      ensures Encodable(fs[i])
    {
      assert SmallField(fs[i]);
      if fs[i].value.LenValue? {
        FieldFits(fs, i);
      }
    }
    DecodeFieldsRoundTrip(fs);
  }

  ghost predicate SmallSlots(slots: seq<Field>) {
    Increasing(slots) && forall f :: f in slots ==> SmallField(f)
  }

  lemma MessageRoundTrip(slots: seq<Field>)
    requires SmallSlots(slots) && |EncodeMessage(slots)| < TWO_64
    ensures DecodeFields(EncodeMessage(slots)) == Some(Present(slots))
  {
    forall f | f in Present(slots)
      ensures SmallField(f)
    {
      PresentSubset(slots, f);
    }
    FieldsRoundTrip(Present(slots));
  }

  /** A string slot is the only field of its number. */
  lemma SlotTextValid(s: seq<Field>, i: nat)
    requires i < |s| && Increasing(s) && s[i].value.LenValue? && ValidUtf8(s[i].value.b)
    ensures TextValid(Present(s), s[i].num)
  {
    var fs := Present(s);
    forall j | 0 <= j < |fs| && fs[j].num == s[i].num && fs[j].value.LenValue?
      ensures ValidUtf8(fs[j].value.b)
    {
      PresentSubset(s, fs[j]);
    }
  }

  /** Reading a certificate back restores all but the version, which comes out as 1. */
  lemma DecodeCertRoundTrip(k: Crypto, c: CertBody, nid: NodeID)
    requires ValidUtf8(c.issuer) && Reparses(k, c.pub) && k.nodeID(c.pub) == Some(nid)
    requires c.version < TWO_64 && |CertBytes(c)| < TWO_64
    ensures DecodeCert(k, CertBytes(c)) == Some(NodeCert(c.(version := 1), nid))
  {
    var s := CertSlots(c);
    CertSlotsSmall(c);
    MessageRoundTrip(s);
    CertSlotValues(c);
    SlotTextValid(s, 2);
    SplitMarshalRoundTrip(k, c.pub);
  }

  lemma CertSlotsSmall(c: CertBody)
    requires c.version < TWO_64
    ensures SmallSlots(CertSlots(c))
  {
    Uint64RoundTrip(c.validFrom);
    Uint64RoundTrip(c.validUntil);
  }

  lemma CertSlotValues(c: CertBody)
    requires c.version < TWO_64
    ensures var fs := Present(CertSlots(c));
            && BytesOf(fs, 2) == MarshalPubKey(c.pub) && BytesOf(fs, 3) == c.issuer
            && WrapInt64(VarintOf(fs, 4)) == c.validFrom && WrapInt64(VarintOf(fs, 5)) == c.validUntil
            && BytesOf(fs, 6) == c.serial && BytesOf(fs, 7) == c.nonce
  {
    var s := CertSlots(c);
    CertSlotsSmall(c);
    SlotRoundTrip(s, 1);
    SlotRoundTrip(s, 2);
    SlotRoundTrip(s, 3);
    SlotRoundTrip(s, 4);
    SlotRoundTrip(s, 5);
    SlotRoundTrip(s, 6);
    Uint64RoundTrip(c.validFrom);
    Uint64RoundTrip(c.validUntil);
  }

  lemma DecodeAuthorityRoundTrip(a: EmbeddedCA)
    requires AuthorityUtf8(a) && |AuthorityBytes(a)| < TWO_64
    ensures DecodeAuthority(AuthorityBytes(a)) == Some(a)
  {
    var s := AuthoritySlots(a);
    assert SmallSlots(s);
    MessageRoundTrip(s);
    SlotTextValid(s, 0);
    SlotTextValid(s, 4);
    SlotRoundTrip(s, 0);
    SlotRoundTrip(s, 1);
    SlotRoundTrip(s, 2);
    SlotRoundTrip(s, 3);
    SlotRoundTrip(s, 4);
  }

  lemma DecodeProofRoundTrip(p: DelegationProof)
    requires |CanonicalDelegationProof(p)| < TWO_64
    ensures DecodeProof(CanonicalDelegationProof(p)) == Some(p)
  {
    var s := DelegationSlots(p);
    ProofSlotsSmall(p);
    MessageRoundTrip(s);
    SlotRoundTrip(s, 0);
    SlotRoundTrip(s, 1);
    SlotRoundTrip(s, 2);
    SlotRoundTrip(s, 3);
    SlotRoundTrip(s, 4);
    SlotRoundTrip(s, 5);
    SlotRoundTrip(s, 6);
    Uint64RoundTrip(p.notBefore);
    Uint64RoundTrip(p.notAfter);
  }

  lemma ProofSlotsSmall(p: DelegationProof)
    ensures SmallSlots(DelegationSlots(p))
  {
    Uint64RoundTrip(p.notBefore);
    Uint64RoundTrip(p.notAfter);
  }

  lemma {:induction false} BytesOfAppend(fs: seq<Field>, gs: seq<Field>, num: nat)
    requires forall i :: 0 <= i < |fs| ==> fs[i].num != num
    ensures BytesOf(fs + gs, num) == BytesOf(gs, num)
  {
    if gs == [] {
      assert fs + gs == fs;
      if fs != [] {
        BytesOfAppend(fs[..|fs| - 1], [], num);
        assert fs[..|fs| - 1] + [] == fs[..|fs| - 1];
      }
    } else {
      BytesOfAppend(fs, gs[..|gs| - 1], num);
      assert (fs + gs)[..|fs + gs| - 1] == fs + gs[..|gs| - 1];
    }
  }

  lemma AllBytesOne(f: Field, n: nat)
    requires f.value.LenValue?
    ensures AllBytes([f], n) == if f.num == n then [f.value.b] else []
  {
    assert [f][1..] == [];
  }

  lemma AllBytesSplit(a: seq<Field>, b: seq<Field>, c: seq<Field>, d: seq<Field>, e: seq<Field>, n: nat)
    ensures AllBytes(a + (b + (c + (d + e))), n) ==
      AllBytes(a, n) + (AllBytes(b, n) + (AllBytes(c, n) + (AllBytes(d, n) + AllBytes(e, n))))
  {
    AllBytesAppend(a, b + (c + (d + e)), n);
    AllBytesAppend(b, c + (d + e), n);
    AllBytesAppend(c, d + e, n);
    AllBytesAppend(d, e, n);
  }

  lemma AllBytesOfParts(certs: seq<Bytes>, sigs: seq<Bytes>, authorities: seq<Bytes>, proof: Bytes, sig: Bytes, n: nat)
    requires 1 <= n <= 4
    ensures AllBytes(FieldsOf(certs, sigs, authorities, proof, sig), n) ==
      if n == 1 then certs else if n == 2 then sigs else if n == 3 then authorities else [proof]
  {
    AllBytesSplit(Repeated(1, certs), Repeated(2, sigs), Repeated(3, authorities), [Field(4, LenValue(proof))],
                  Singular(5, sig), n);
    AllBytesOne(Field(4, LenValue(proof)), n);
    AllBytesOne(Field(5, LenValue(sig)), n);
    AllBytesRepeated(1, certs, n);
    AllBytesRepeated(2, sigs, n);
    AllBytesRepeated(3, authorities, n);
  }

  lemma BytesOfParts(certs: seq<Bytes>, sigs: seq<Bytes>, authorities: seq<Bytes>, proof: Bytes, sig: Bytes)
    ensures BytesOf(FieldsOf(certs, sigs, authorities, proof, sig), 5) == sig
  {
    var d, e := [Field(4, LenValue(proof))], Singular(5, sig);
    var a, b, c := Repeated(1, certs), Repeated(2, sigs), Repeated(3, authorities);
    BytesOfAppend(a, b + (c + (d + e)), 5);
    BytesOfAppend(b, c + (d + e), 5);
    BytesOfAppend(c, d + e, 5);
    BytesOfAppend(d, e, 5);
  }

  /** The parts of a message are found again among its fields. */
  lemma AuthFieldParts(m: AuthMessage)
    ensures var fs := AuthFields(m);
            && AllBytes(fs, 1) == MapSeq(CertBytes, m.bodies)
            && AllBytes(fs, 2) == m.caSigs
            && AllBytes(fs, 3) == MapSeq(AuthorityBytes, m.authorities)
            && AllBytes(fs, 4) == [CanonicalDelegationProof(m.proof)]
            && BytesOf(fs, 5) == m.delegationSig
  {
    var certs, authorities := MapSeq(CertBytes, m.bodies), MapSeq(AuthorityBytes, m.authorities);
    var proof := CanonicalDelegationProof(m.proof);
    AllBytesOfParts(certs, m.caSigs, authorities, proof, m.delegationSig, 1);
    AllBytesOfParts(certs, m.caSigs, authorities, proof, m.delegationSig, 2);
    AllBytesOfParts(certs, m.caSigs, authorities, proof, m.delegationSig, 3);
    AllBytesOfParts(certs, m.caSigs, authorities, proof, m.delegationSig, 4);
    BytesOfParts(certs, m.caSigs, authorities, proof, m.delegationSig);
  }

  /** Every sent certificate reads back with a derivable identifier. */
  ghost predicate Readable(k: Crypto, m: AuthMessage) {
    && AuthUtf8(m)
    && forall i :: 0 <= i < |m.bodies| ==>
         m.bodies[i].version == DEFAULT_CERT_VERSION && Reparses(k, m.bodies[i].pub) && k.nodeID(m.bodies[i].pub).Some?
  }

  function Received(k: Crypto, c: CertBody): Option<NodeCert> {
    match k.nodeID(c.pub)
    case None => None
    case Some(nid) => Some(NodeCert(c, nid))
  }

  lemma {:induction false} DecodeCertsRoundTrip(k: Crypto, bodies: seq<CertBody>)
    requires IssuersUtf8(bodies)
    requires forall i :: 0 <= i < |bodies| ==>
      bodies[i].version == DEFAULT_CERT_VERSION && Reparses(k, bodies[i].pub) && k.nodeID(bodies[i].pub).Some?
      && |CertBytes(bodies[i])| < TWO_64
    ensures var r := DecodeCerts(k, MapSeq(CertBytes, bodies));
            r.Some? && |r.value| == |bodies| && forall i :: 0 <= i < |bodies| ==> r.value[i] == Received(k, bodies[i])
    decreases |bodies|
  {
    if bodies != [] {
      DecodeCertRoundTrip(k, bodies[0], k.nodeID(bodies[0].pub).value);
      DecodeCertsRoundTrip(k, bodies[1..]);
      MapHead(CertBytes, bodies);
      var first, rest := CertBytes(bodies[0]), MapSeq(CertBytes, bodies[1..]);
      assert DecodeCerts(k, [first] + rest) == Some([DecodeCert(k, first)] + DecodeCerts(k, rest).value) by {
        assert ([first] + rest)[1..] == rest;
      }
    }
  }

  lemma {:induction false} DecodeAuthoritiesRoundTrip(authorities: seq<EmbeddedCA>)
    requires forall i :: 0 <= i < |authorities| ==>
      AuthorityUtf8(authorities[i]) && |AuthorityBytes(authorities[i])| < TWO_64
    ensures DecodeAuthorities(MapSeq(AuthorityBytes, authorities)) == Some(authorities)
  {
    if authorities != [] {
      DecodeAuthorityRoundTrip(authorities[0]);
      DecodeAuthoritiesRoundTrip(authorities[1..]);
      var encs := MapSeq(AuthorityBytes, authorities);
      assert encs[0] == AuthorityBytes(authorities[0]) && encs[1..] == MapSeq(AuthorityBytes, authorities[1..]);
      assert authorities == [authorities[0]] + authorities[1..];
    }
  }

  lemma {:induction false} MemberFits(fs: seq<Field>, f: Field)
    requires f in fs && f.value.LenValue?
    ensures |f.value.b| <= |EncodeFields(fs)|
  {
    var i :| 0 <= i < |fs| && fs[i] == f;
    FieldFits(fs, i);
  }

  lemma RepeatedMember(num: nat, items: seq<Bytes>, i: nat)
    requires i < |items|
    ensures Field(num, LenValue(items[i])) in Repeated(num, items)
  {
    assert Repeated(num, items)[i] == Field(num, LenValue(items[i]));
  }

  /** Each nested encoding is one of the top-level fields. */
  lemma PartsAreFields(certs: seq<Bytes>, sigs: seq<Bytes>, authorities: seq<Bytes>, proof: Bytes, sig: Bytes)
    ensures var fs := FieldsOf(certs, sigs, authorities, proof, sig);
            && (forall i :: 0 <= i < |certs| ==> Field(1, LenValue(certs[i])) in fs)
            && (forall i :: 0 <= i < |authorities| ==> Field(3, LenValue(authorities[i])) in fs)
            && Field(4, LenValue(proof)) in fs
            && (forall f :: f in fs ==> SmallField(f))
  {
    forall i | 0 <= i < |certs|
      ensures Field(1, LenValue(certs[i])) in Repeated(1, certs)
    {
      RepeatedMember(1, certs, i);
    }
    forall i | 0 <= i < |authorities|
      ensures Field(3, LenValue(authorities[i])) in Repeated(3, authorities)
    {
      RepeatedMember(3, authorities, i);
    }
  }

  /** The nested encodings are no longer than the payload that holds them. */
  lemma PartsFit(m: AuthMessage)
    ensures forall i :: 0 <= i < |m.bodies| ==> |CertBytes(m.bodies[i])| <= |AuthPayload(m)|
    ensures forall i :: 0 <= i < |m.authorities| ==> |AuthorityBytes(m.authorities[i])| <= |AuthPayload(m)|
    ensures |CanonicalDelegationProof(m.proof)| <= |AuthPayload(m)|
  {
    var certs, authorities := MapSeq(CertBytes, m.bodies), MapSeq(AuthorityBytes, m.authorities);
    var fs := AuthFields(m);
    PartsAreFields(certs, m.caSigs, authorities, CanonicalDelegationProof(m.proof), m.delegationSig);
    forall i | 0 <= i < |m.bodies|
      ensures |CertBytes(m.bodies[i])| <= |AuthPayload(m)|
    {
      MemberFits(fs, Field(1, LenValue(certs[i])));
    }
    forall i | 0 <= i < |m.authorities|
      ensures |AuthorityBytes(m.authorities[i])| <= |AuthPayload(m)|
    {
      MemberFits(fs, Field(3, LenValue(authorities[i])));
    }
    MemberFits(fs, Field(4, LenValue(CanonicalDelegationProof(m.proof))));
  }

  lemma FrameRoundTrip(payload: Bytes, rest: Bytes)
    requires 0 < |payload| <= MAX_AUTH_MESSAGE_SIZE
    ensures ReadFrame(BigEndian32(|payload|) + payload + rest) == Some(payload)
  {
    var stream := BigEndian32(|payload|) + payload + rest;
    assert stream[..4] == BigEndian32(|payload|);
    BigEndian32RoundTrip(|payload|);
    assert stream[4..4 + |payload|] == payload;
  }

  lemma PayloadFields(m: AuthMessage)
    requires |AuthPayload(m)| <= MAX_AUTH_MESSAGE_SIZE
    ensures DecodeFields(AuthPayload(m)) == Some(AuthFields(m)) && 0 < |AuthPayload(m)|
  {
    var fs := AuthFields(m);
    PartsAreFields(MapSeq(CertBytes, m.bodies), m.caSigs, MapSeq(AuthorityBytes, m.authorities),
                   CanonicalDelegationProof(m.proof), m.delegationSig);
    FieldsRoundTrip(fs);
    assert fs != [];
  }

  lemma ProofDecodes(m: AuthMessage)
    requires |AuthPayload(m)| <= MAX_AUTH_MESSAGE_SIZE
    ensures ReadProof(AuthFields(m)) == Some(m.proof)
  {
    AuthFieldParts(m);
    PartsFit(m);
    DecodeProofRoundTrip(m.proof);
    var b := CanonicalDelegationProof(m.proof);
    assert Concat([b]) == b + [] == b;
  }

  /** The parts a reader extracts from the fields, before it consults its connection. */
  lemma PartsDecode(k: Crypto, m: AuthMessage)
    requires Readable(k, m) && |AuthPayload(m)| <= MAX_AUTH_MESSAGE_SIZE
    ensures
      var fs := AuthFields(m);
      var certs := DecodeCerts(k, AllBytes(fs, 1));
      && certs.Some? && |certs.value| == |m.bodies|
      && (forall i :: 0 <= i < |m.bodies| ==> certs.value[i] == Received(k, m.bodies[i]))
      && DecodeAuthorities(AllBytes(fs, 3)) == Some(m.authorities)
      && ReadProof(fs) == Some(m.proof)
      && AllBytes(fs, 2) == m.caSigs && BytesOf(fs, 5) == m.delegationSig
  {
    AuthFieldParts(m);
    PartsFit(m);
    DecodeCertsRoundTrip(k, m.bodies);
    DecodeAuthoritiesRoundTrip(m.authorities);
    ProofDecodes(m);
  }

  lemma FrameOf(m: AuthMessage)
    requires WriteAuthHandshake(m).Some?
    ensures ReadFrame(WriteAuthHandshake(m).value) == Some(AuthPayload(m))
    ensures DecodeFields(AuthPayload(m)) == Some(AuthFields(m))
  {
    var payload := AuthPayload(m);
    PayloadFields(m);
    FrameRoundTrip(payload, []);
    assert BigEndian32(|payload|) + payload + [] == WriteAuthHandshake(m).value;
  }

  /** The verifier reads what an honest prover wrote, and binds it to its own connection. */
  lemma ReadWriteRoundTrip(k: Crypto, m: AuthMessage, conn: Connection)
    requires Readable(k, m) && WriteAuthHandshake(m).Some?
    requires Bindings(conn, m.proof).Some?
    ensures
      var hs := ReadAuthHandshake(k, WriteAuthHandshake(m).value, conn);
      && hs.Some? && |hs.value.certs| == |m.bodies|
      && (forall i :: 0 <= i < |m.bodies| ==> hs.value.certs[i] == Received(k, m.bodies[i]))
      && hs.value ==
        PeerHandshake(hs.value.certs, m.caSigs, m.authorities, Some(m.proof), m.delegationSig,
                      Bindings(conn, m.proof).value)
  {
    FrameOf(m);
    assert ReadAuthHandshake(k, WriteAuthHandshake(m).value, conn) == ReadFields(k, AuthFields(m), conn);
    PartsDecode(k, m);
  }

  /** An accepted proof is bound to the connection it arrived on, through the verifier's own exporter. */
  lemma AcceptedProofIsBound(k: Crypto, t: Trust, stream: Bytes, conn: Connection, now: Int64)
    ensures
      var hs := ReadAuthHandshake(k, stream, conn);
      hs.Some? && Verify(k, t, hs.value, now).Ok? ==>
        && hs.value.proof.Some?
        && var proof := hs.value.proof.value;
           && proof.tlsCertPubKeyHash == conn.certPubKeyHash
           && proof.x509Fingerprint == conn.x509Fingerprint
           && Some(proof.tlsTranscriptHash) == conn.exporter(Ascii("EXPORTER_OUROBOROS_TRANSCRIPT_BINDING_V1"), [], 32)
           && Some(proof.tlsExporterBinding) ==
             conn.exporter(Ascii("EXPORTER_OUROBOROS_NODE_DELEGATION_V1"),
                           CanonicalDelegationProofForExporter(proof), 32)
  {
    var hs := ReadAuthHandshake(k, stream, conn);
    if hs.Some? {
      VerifyIff(k, t, hs.value, now);
    }
  }

  // ----- Honest handshakes -----

  /** A node's identity as it stands when it dials or answers a peer. */
  datatype Identity = Identity(
    pub: PublicKey,
    sign: Bytes -> Option<Bytes>,
    bodies: seq<CertBody>,
    caSigs: seq<Bytes>,
    authorities: seq<EmbeddedCA>,
    session: Session)

  /** All certificates are for the node's own key, which signs, parses and has an identifier. */
  ghost predicate HonestIdentity(k: Crypto, id: Identity) {
    && 1 <= |id.bodies| <= 1024
    && |id.caSigs| == |id.bodies|
    && (forall i :: 0 <= i < |id.bodies| ==> id.bodies[i].pub == id.pub && id.bodies[i].version == 1)
    && IssuersUtf8(id.bodies)
    && AuthoritiesUtf8(id.authorities)
    && Reparses(k, id.pub)
    && k.nodeID(id.pub).Some?
    && (forall m :: id.sign(m).Some? && id.sign(m).value != [] && k.verify(id.pub, m, id.sign(m).value))
  }

  /** The session exports 32-byte values. */
  ghost predicate Exports(exporter: Exporter) {
    forall name, ctx :: exporter(name, ctx, 32).Some?
      && |exporter(name, ctx, 32).value| == 32
  }

  function MessageOf(id: Identity, d: Delegation): AuthMessage {
    AuthMessage(id.bodies, id.caSigs, id.authorities, d.proof, d.sig)
  }

  /** The verifier's view of the same TLS session: the prover's certificate and the shared exporter. */
  function PeerView(id: Identity, exporter: Exporter): Connection {
    Connection(id.session.certPubKeyHash, id.session.x509Fingerprint, exporter)
  }

  /** Signing succeeds, and the proof's exporter value is the export over the finished proof. */
  lemma HonestDelegation(k: Crypto, id: Identity, exporter: Exporter, now: Int64)
    requires HonestIdentity(k, id) && Exports(exporter)
    ensures
      var d := SignDelegation(k, id.sign, id.bodies, id.session, exporter, now);
      && d.Some?
      && d.value.sig != [] && k.verify(id.pub, DelegationMessage(d.value.proof), d.value.sig)
      && Bindings(PeerView(id, exporter), d.value.proof).Some?
      && Bound(d.value.proof, Bindings(PeerView(id, exporter), d.value.proof).value)
      && BundleBound(k, d.value.proof, id.bodies)
      && d.value.proof.notBefore == now && d.value.proof.notAfter == WrapInt64(now + 300)
  {
    var transcript := exporter(TRANSCRIPT_LABEL, [], 32).value;
    var draft := DelegationProof(id.session.certPubKeyHash, [], transcript, id.session.x509Fingerprint,
                                 k.sha256(BundleBytes(id.bodies)), now, WrapInt64(now + 300));
    var exported := exporter(EXPORTER_LABEL, CanonicalDelegationProofForExporter(draft), 32).value;
    var proof := draft.(tlsExporterBinding := exported);
    ExporterContextIff(proof, draft);
    assert SignDelegation(k, id.sign, id.bodies, id.session, exporter, now) ==
      Some(Delegation(proof, id.sign(DelegationMessage(proof)).value));
  }

  lemma WindowIff(proof: DelegationProof, signedAt: Int64, now: Int64)
    requires proof.notBefore == signedAt && proof.notAfter == WrapInt64(signedAt + 300)
    ensures Fresh(proof, now) <==> signedAt <= now <= signedAt + 300 < TWO_63
  {
  }

  /** What the verifier received from an honest prover: the prover's own certificates under its own key. */
  ghost predicate ReceivedFrom(k: Crypto, id: Identity, hs: PeerHandshake) {
    && |hs.certs| == |id.bodies|
    && (forall i :: 0 <= i < |id.bodies| ==> hs.certs[i] == Received(k, id.bodies[i]))
    && hs.caSigs == id.caSigs
  }

  lemma ReceivedIsConsistent(k: Crypto, id: Identity, hs: PeerHandshake)
    requires HonestIdentity(k, id) && ReceivedFrom(k, id, hs)
    ensures CertsConsistent(k, hs.certs) && Bodies(hs) == id.bodies
  {
    forall c | c in hs.certs
      ensures c.Some? && c.value.body.version == 1
        && k.nodeID(c.value.body.pub) == Some(c.value.nodeID)
    {
      var i :| 0 <= i < |hs.certs| && hs.certs[i] == c;
      assert c == Received(k, id.bodies[i]);
    }
  }

  /** Some certificate of the honest node counts for the verifier. */
  ghost predicate Vouched(k: Crypto, t: Trust, id: Identity, now: Int64)
    requires |id.bodies| == |id.caSigs|
  {
    && WithEmbeddedAuthorities(k, t, id.authorities).Ok?
    && exists p ::
         && p in Zip(id.bodies, id.caSigs)
         && Counts(k, WithEmbeddedAuthorities(k, t, id.authorities).value, now, p)
  }

  /** Certificates of one key form a chain as soon as one of them counts, and the chain names that key. */
  lemma HonestChain(k: Crypto, t: Trust, now: Int64, id: Identity)
    requires HonestIdentity(k, id)
    ensures var ps := Zip(id.bodies, id.caSigs);
            && (Chain(k, t, now, ps).Ok? <==> exists p :: p in ps && Counts(k, t, now, p))
            && (Chain(k, t, now, ps).Ok? ==>
                  Chain(k, t, now, ps).value.pub == id.pub
                    && Some(Chain(k, t, now, ps).value.nodeID) == k.nodeID(id.pub))
  {
    var ps := Zip(id.bodies, id.caSigs);
    assert forall p :: p in ps ==> p.body.pub == id.pub;
    ChainOkIff(k, t, now, ps);
    var cs := CountedOf(k, t, now, ps);
    assert cs != [] ==> cs[0] in cs;
  }

  lemma HonestVerdict(k: Crypto, t: Trust, id: Identity, hs: PeerHandshake, d: Delegation, signedAt: Int64, now: Int64)
    requires HonestIdentity(k, id) && ReceivedFrom(k, id, hs)
    requires hs.authorities == id.authorities && hs.proof == Some(d.proof) && hs.delegationSig == d.sig
    requires d.sig != [] && k.verify(id.pub, DelegationMessage(d.proof), d.sig)
    requires Bound(d.proof, hs.tls) && BundleBound(k, d.proof, id.bodies)
    requires d.proof.notBefore == signedAt && d.proof.notAfter == WrapInt64(signedAt + 300)
    ensures Verify(k, t, hs, now).Ok? <==>
      Vouched(k, t, id, now) && signedAt <= now <= signedAt + 300 < TWO_63
    ensures Verify(k, t, hs, now).Ok? ==> Some(Verify(k, t, hs, now).value.nodeID) == k.nodeID(id.pub)
  {
    ReceivedIsConsistent(k, id, hs);
    assert Pairs(hs) == Zip(id.bodies, id.caSigs);
    VerifyStages(k, t, hs, now);
    assert Extended(k, t, hs) == WithEmbeddedAuthorities(k, t, id.authorities);
    WindowIff(d.proof, signedAt, now);
    ProofIff(k, id.pub, hs, now);
    if Extended(k, t, hs).Ok? {
      HonestChain(k, Extended(k, t, hs).value, now, id);
    }
  }

  /**
  End to end: an honest prover's handshake, signed at one clock reading, written, read by a
  verifier sharing the TLS session, and verified at another, is accepted exactly when some
  certificate counts and the proof is still in its five-minute window.
   */
  lemma HonestHandshakeAccepted(k: Crypto, t: Trust, id: Identity, exporter: Exporter, signedAt: Int64, now: Int64)
    requires HonestIdentity(k, id) && Exports(exporter)
    ensures SignDelegation(k, id.sign, id.bodies, id.session, exporter, signedAt).Some?
    ensures
      var d := SignDelegation(k, id.sign, id.bodies, id.session, exporter, signedAt).value;
      var m := MessageOf(id, d);
      |AuthPayload(m)| <= 1_048_576 ==>
        && WriteAuthHandshake(m).Some?
        && var hs := ReadAuthHandshake(k, WriteAuthHandshake(m).value, PeerView(id, exporter));
           && hs.Some?
           && (Verify(k, t, hs.value, now).Ok? <==>
                 Vouched(k, t, id, now) && signedAt <= now <= signedAt + 300 < TWO_63)
           && (Verify(k, t, hs.value, now).Ok? ==> Some(Verify(k, t, hs.value, now).value.nodeID) == k.nodeID(id.pub))
  {
    HonestDelegation(k, id, exporter, signedAt);
    var d := SignDelegation(k, id.sign, id.bodies, id.session, exporter, signedAt).value;
    var m := MessageOf(id, d);
    if |AuthPayload(m)| <= 1_048_576 {
      assert Readable(k, m);
      ReadWriteRoundTrip(k, m, PeerView(id, exporter));
      var hs := ReadAuthHandshake(k, WriteAuthHandshake(m).value, PeerView(id, exporter)).value;
      HonestVerdict(k, t, id, hs, d, signedAt, now);
    }
  }
}
