/**
VerifyPeerCert (internal/auth/carrier_auth_verify.go): the pipeline, its declarative
meaning, and what follows from it for every trust store, time and handshake.
 */
module PeerVerification {
  import opened Base
  import opened Keys
  import opened Canonical
  import opened TrustStore
  import opened TrustSnapshot
  import opened Certification
  import opened Access

  const MAX_PEER_CERT_BUNDLE_SIZE := 1024
  const DEFAULT_CERT_VERSION := 1
  const MAX_DELEGATION_TTL := 300
  const BINDING_SIZE := 32

  datatype TLSBindings = TLSBindings(
    certPubKeyHash: Bytes,
    exporterBinding: Bytes,
    x509Fingerprint: Bytes,
    transcriptHash: Bytes)

  datatype PeerHandshake = PeerHandshake(
    certs: seq<Option<NodeCert>>,
    caSigs: seq<Bytes>,
    authorities: seq<EmbeddedCA>,
    proof: Option<DelegationProof>,
    delegationSig: Bytes,
    tls: TLSBindings)

  datatype AuthContext = AuthContext(nodeID: NodeID, scope: Scope, owners: seq<Bytes>, hasValidAdminCert: bool)

  // ----- The checks, in the order of the source -----

  function HandshakeError(hs: PeerHandshake): Option<AuthError> {
    if |hs.certs| == 0 then Some(ErrNoCerts)
    else if |hs.certs| > MAX_PEER_CERT_BUNDLE_SIZE then Some(ErrBundleTooLarge)
    else if |hs.caSigs| != |hs.certs| then Some(ErrSignatureCountMismatch)
    else if hs.proof.None? then Some(ErrNilDelegationProof)
    else if |hs.delegationSig| == 0 then Some(ErrInvalidDelegationSig)
    else None
  }

  function CertSnapshotError(k: Crypto, c: Option<NodeCert>): Option<AuthError> {
    if c.None? then Some(ErrNilCertEntry)
    else if c.value.body.version != DEFAULT_CERT_VERSION then Some(ErrUnsupportedCertVersion)
    else if k.nodeID(c.value.body.pub).None? then Some(ErrNodeIDDerivation)
    else if k.nodeID(c.value.body.pub).value != c.value.nodeID then Some(ErrStatefulCert)
    else None
  }

  function CertsSnapshotError(k: Crypto, certs: seq<Option<NodeCert>>): Option<AuthError>
    decreases |certs|
  {
    if certs == [] then None
    else
      var err := CertSnapshotError(k, certs[0]);
      if err.Some? then err else CertsSnapshotError(k, certs[1..])
  }

  /** Stands for the contents of a nil entry; a handshake holding one is rejected before it is read. */
  const NO_BODY := CertBody(0, CompositeKey(Zeros(KEM_PUBLIC_KEY_SIZE), [0]), [], 0, 0, [], [])

  function BodyOf(c: Option<NodeCert>): CertBody {
    if c.Some? then c.value.body else NO_BODY
  }

  function Bodies(hs: PeerHandshake): seq<CertBody> {
    MapSeq(BodyOf, hs.certs)
  }

  function Pairs(hs: PeerHandshake): seq<Pair>
    requires |hs.certs| == |hs.caSigs|
  {
    Zip(Bodies(hs), hs.caSigs)
  }

  function BindingFields(proof: DelegationProof, tls: TLSBindings): seq<Bytes> {
    [ proof.tlsCertPubKeyHash, proof.tlsExporterBinding, proof.tlsTranscriptHash, proof.x509Fingerprint,
      proof.nodeCertBundleHash, tls.certPubKeyHash, tls.exporterBinding, tls.x509Fingerprint, tls.transcriptHash ]
  }

  predicate BindingFieldsSized(fields: seq<Bytes>) {
    forall i :: 0 <= i < |fields| ==> |fields[i]| == BINDING_SIZE
  }

  /** The message the node key signs to delegate to a TLS session. */
  function DelegationMessage(proof: DelegationProof): Bytes {
    DomainSeparate(CTX_NODE_DELEGATION, CanonicalDelegationProof(proof))
  }

  function DelegationError(k: Crypto, pub: PublicKey, proof: DelegationProof, sig: Bytes, bodies: seq<CertBody>,
                           tls: TLSBindings)
    : Option<AuthError>
  {
    if !k.verify(pub, DelegationMessage(proof), sig) then Some(ErrInvalidDelegationSig)
    else if proof.tlsCertPubKeyHash != tls.certPubKeyHash then Some(ErrTLSBindingMismatch)
    else if proof.x509Fingerprint != tls.x509Fingerprint then Some(ErrTLSBindingMismatch)
    else
      match CanonicalNodeCertBundle(bodies)
      case None => Some(ErrCanonicalEncoding)
      case Some(bundle) => if proof.nodeCertBundleHash != k.sha256(bundle) then Some(ErrBundleHashMismatch) else None
  }

  function FreshnessError(proof: DelegationProof, tls: TLSBindings, now: Int64): Option<AuthError> {
    if now < proof.notBefore || now > proof.notAfter then Some(ErrDelegationExpired)
    else
      var ttl := WrapInt64(proof.notAfter - proof.notBefore);
      if ttl < 0 || ttl > MAX_DELEGATION_TTL then Some(ErrDelegationTooLong)
      else if proof.tlsExporterBinding != tls.exporterBinding then Some(ErrTLSBindingMismatch)
      else if proof.tlsTranscriptHash != tls.transcriptHash then Some(ErrTLSBindingMismatch)
      else None
  }

  function DeriveScope(r: AuthResult): AuthContext {
    if r.adminValid then AuthContext(r.nodeID, ScopeAdmin, [], true)
    else AuthContext(r.nodeID, ScopeUser, r.userHashes, false)
  }

  /** The checks that follow the chain: binding lengths, delegation, freshness. */
  function ProofError(k: Crypto, pub: PublicKey, hs: PeerHandshake, now: Int64): Option<AuthError>
    requires hs.proof.Some?
  {
    if !BindingFieldsSized(BindingFields(hs.proof.value, hs.tls)) then Some(ErrInvalidBindingField)
    else
      var err := DelegationError(k, pub, hs.proof.value, hs.delegationSig, Bodies(hs), hs.tls);
      if err.Some? then err else FreshnessError(hs.proof.value, hs.tls, now)
  }

  /** The snapshot that a handshake is verified against. */
  function Extended(k: Crypto, t: Trust, hs: PeerHandshake): Result<Trust, AuthError> {
    if |hs.authorities| > 0 then WithEmbeddedAuthorities(k, t, hs.authorities) else Ok(t)
  }

  /** VerifyPeerCert at a given store and clock reading. */
  function Verify(k: Crypto, t: Trust, hs: PeerHandshake, now: Int64): Result<AuthContext, AuthError> {
    if HandshakeError(hs).Some? then Err(HandshakeError(hs).value)
    else if CertsSnapshotError(k, hs.certs).Some? then Err(CertsSnapshotError(k, hs.certs).value)
    else
      match Extended(k, t, hs)
      case Err(e) => Err(e)
      case Ok(ext) =>
        match Chain(k, ext, now, Pairs(hs))
        case Err(e) => Err(e)
        case Ok(result) =>
          match ProofError(k, result.pub, hs, now)
          case Some(e) => Err(e)
          case None => Ok(DeriveScope(result))
  }

  // ----- The imperative form -----

  method SnapshotCerts(k: Crypto, certs: seq<Option<NodeCert>>) returns (r: Result<seq<CertBody>, AuthError>)
    ensures r == match CertsSnapshotError(k, certs)
                 case Some(e) => Err(e)
                 case None => Ok(MapSeq(BodyOf, certs))
  {
    var out: seq<CertBody> := [];
    for i := 0 to |certs|
      invariant CertsSnapshotError(k, certs) == CertsSnapshotError(k, certs[i..])
      invariant |out| == i && forall j :: 0 <= j < i ==> out[j] == BodyOf(certs[j])
    {
      assert certs[i..][0] == certs[i] && certs[i..][1..] == certs[i + 1..];
      var err := CertSnapshotError(k, certs[i]);
      if err.Some? {
        return Err(err.value);
      }
      out := out + [certs[i].value.body];
    }
    assert out == MapSeq(BodyOf, certs);
    return Ok(out);
  }

  method ValidateBindingFields(fields: seq<Bytes>) returns (err: Option<AuthError>)
    ensures err == if BindingFieldsSized(fields) then None else Some(ErrInvalidBindingField)
  {
    for i := 0 to |fields|
      invariant BindingFieldsSized(fields[..i])
    {
      if |fields[i]| != BINDING_SIZE {
        return Some(ErrInvalidBindingField);
      }
    }
    assert fields[..|fields|] == fields;
    return None;
  }

  /**
  Verification copies the store's maps, extends a clone of the copy, and works on that: it
  may change no object that existed before the call.
   */
  method VerifyPeerCert(ca: CarrierAuth, hs: PeerHandshake, now: Int64) returns (r: Result<AuthContext, AuthError>)
    requires ca.Valid()
    ensures r == Verify(ca.k, ca.State(), hs, now)
  {
    var k := ca.k;
    var bad := HandshakeError(hs);
    if bad.Some? {
      return Err(bad.value);
    }
    var certs := SnapshotCerts(k, hs.certs);
    if certs.Err? {
      return Err(certs.error);
    }
    var maps := CopyTables(ca.maps);
    if |hs.authorities| > 0 {
      var clone, failure := ExtendSnapshot(k, maps, hs.authorities);
      if failure.Some? {
        return Err(failure.value);
      }
      maps := clone;
    }
    var ts := Read(maps);
    var chain := VerifyChain(k, ts, certs.value, hs.caSigs, now);
    if chain.Err? {
      return Err(chain.error);
    }
    var proof := hs.proof.value;
    var err := ValidateBindingFields(BindingFields(proof, hs.tls));
    if err.None? {
      err := DelegationError(k, chain.value.pub, proof, hs.delegationSig, certs.value, hs.tls);
    }
    if err.None? {
      err := FreshnessError(proof, hs.tls, now);
    }
    return if err.Some? then Err(err.value) else Ok(DeriveScope(chain.value));
  }

  // ----- What acceptance means -----

  ghost predicate WellShaped(hs: PeerHandshake) {
    && 1 <= |hs.certs| <= 1024
    && |hs.caSigs| == |hs.certs|
    && hs.proof.Some?
    && hs.delegationSig != []
  }

  ghost predicate CertsConsistent(k: Crypto, certs: seq<Option<NodeCert>>) {
    forall c :: c in certs ==>
      c.Some? && c.value.body.version == 1 && k.nodeID(c.value.body.pub) == Some(c.value.nodeID)
  }

  /** All presented bindings are 32 bytes and the proof's agree with the transport's. */
  ghost predicate Bound(proof: DelegationProof, tls: TLSBindings) {
    && |proof.nodeCertBundleHash| == 32
    && |proof.tlsCertPubKeyHash| == |proof.x509Fingerprint| == |proof.tlsExporterBinding| ==
      |proof.tlsTranscriptHash| == 32
    && proof.tlsCertPubKeyHash == tls.certPubKeyHash
    && proof.x509Fingerprint == tls.x509Fingerprint
    && proof.tlsExporterBinding == tls.exporterBinding
    && proof.tlsTranscriptHash == tls.transcriptHash
  }

  /** The clock lies in the proof's window, which is at most five minutes wide as a mathematical interval. */
  ghost predicate Fresh(proof: DelegationProof, now: Int64) {
    proof.notBefore <= now <= proof.notAfter && proof.notAfter - proof.notBefore <= 300
  }

  ghost predicate BundleBound(k: Crypto, proof: DelegationProof, bodies: seq<CertBody>) {
    IssuersUtf8(bodies) && proof.nodeCertBundleHash == k.sha256(BundleBytes(bodies))
  }

  /** Some certificate counts, and all that count certify one node. */
  ghost predicate OneNode(k: Crypto, t: Trust, now: Int64, ps: seq<Pair>) {
    && (exists p :: p in ps && Counts(k, t, now, p))
    && (forall p, q :: p in ps && q in ps && Counts(k, t, now, p) && Counts(k, t, now, q) ==>
          k.nodeID(p.body.pub) == k.nodeID(q.body.pub))
  }

  /** p is the first pair that counts. */
  ghost predicate FirstCounted(k: Crypto, t: Trust, now: Int64, ps: seq<Pair>, p: Pair) {
    exists i :: 0 <= i < |ps| && ps[i] == p && Counts(k, t, now, p)
             && forall j :: 0 <= j < i ==> !Counts(k, t, now, ps[j])
  }

  ghost predicate ProofGood(k: Crypto, hs: PeerHandshake, now: Int64)
    requires hs.proof.Some?
  {
    Bound(hs.proof.value, hs.tls) && Fresh(hs.proof.value, now) && BundleBound(k, hs.proof.value, Bodies(hs))
  }

  /** The presented pairs that the store, together with the supplied authorities, certifies. */
  ghost function CertifiedPairs(k: Crypto, t: Trust, hs: PeerHandshake, now: Int64): set<Pair>
    requires |hs.certs| == |hs.caSigs|
  {
    set p | p in Pairs(hs) && Certified(k, t, hs.authorities, now, p)
  }

  /** There are some, and all are of one node. */
  ghost predicate OfOneNode(k: Crypto, good: set<Pair>) {
    good != {} && forall p, q :: p in good && q in good ==> k.nodeID(p.body.pub) == k.nodeID(q.body.pub)
  }

  /** p is the first pair of the sequence that is among the good ones. */
  ghost predicate FirstOf(ps: seq<Pair>, good: set<Pair>, p: Pair) {
    exists i :: 0 <= i < |ps| && ps[i] == p && p in good && forall j :: 0 <= j < i ==> ps[j] !in good
  }

  /** Given the pairs that are good: they name one node, and the first one's key delegated to this session. */
  ghost predicate AcceptsOn(k: Crypto, hs: PeerHandshake, now: Int64, good: set<Pair>)
    requires |hs.certs| == |hs.caSigs| && hs.proof.Some?
  {
    && OfOneNode(k, good)
    && ProofGood(k, hs, now)
    && exists p ::
         && FirstOf(Pairs(hs), good, p)
         && k.verify(p.body.pub, DelegationMessage(hs.proof.value), hs.delegationSig)
  }

  /** The declarative meaning of acceptance. */
  ghost predicate Accepts(k: Crypto, t: Trust, hs: PeerHandshake, now: Int64) {
    && WellShaped(hs)
    && CertsConsistent(k, hs.certs)
    && AuthoritiesGood(k, t, hs.authorities)
    && AcceptsOn(k, hs, now, CertifiedPairs(k, t, hs, now))
  }

  lemma {:induction false} SnapshotErrorIff(k: Crypto, certs: seq<Option<NodeCert>>)
    ensures CertsSnapshotError(k, certs).None? <==> CertsConsistent(k, certs)
    decreases |certs|
  {
    if certs != [] {
      SnapshotErrorIff(k, certs[1..]);
      assert forall c :: c in certs <==> c == certs[0] || c in certs[1..];
    }
  }

  /** The int64 subtraction may wrap, but never into the accepted range. */
  lemma FreshnessIff(proof: DelegationProof, tls: TLSBindings, now: Int64)
    ensures FreshnessError(proof, tls, now).None? <==>
      Fresh(proof, now) && proof.tlsExporterBinding == tls.exporterBinding
        && proof.tlsTranscriptHash == tls.transcriptHash
  {
  }

  lemma BindingsSizedIff(proof: DelegationProof, tls: TLSBindings)
    ensures BindingFieldsSized(BindingFields(proof, tls)) <==>
      && |proof.tlsCertPubKeyHash| == |proof.tlsExporterBinding| == |proof.tlsTranscriptHash| == 32
      && |proof.x509Fingerprint| == |proof.nodeCertBundleHash| == |tls.certPubKeyHash| == 32
      && |tls.exporterBinding| == |tls.x509Fingerprint| == |tls.transcriptHash| == 32
  {
    var f := BindingFields(proof, tls);
    if BindingFieldsSized(f) {
      assert |f[0]| == |f[1]| == |f[2]| == |f[3]| == |f[4]| == |f[5]| == |f[6]| == |f[7]| == |f[8]| == BINDING_SIZE;
    }
  }

  lemma ProofIff(k: Crypto, pub: PublicKey, hs: PeerHandshake, now: Int64)
    requires hs.proof.Some?
    ensures ProofError(k, pub, hs, now).None? <==>
      ProofGood(k, hs, now) && k.verify(pub, DelegationMessage(hs.proof.value), hs.delegationSig)
  {
    BindingsSizedIff(hs.proof.value, hs.tls);
    FreshnessIff(hs.proof.value, hs.tls, now);
  }

  lemma FirstCountedAfterSkip(k: Crypto, t: Trust, now: Int64, ps: seq<Pair>, p: Pair)
    requires ps != [] && !Counts(k, t, now, ps[0]) && FirstCounted(k, t, now, ps[1..], p)
    ensures FirstCounted(k, t, now, ps, p)
  {
    var i :| 0 <= i < |ps[1..]| && ps[1..][i] == p && Counts(k, t, now, p)
      && forall j :: 0 <= j < i ==> !Counts(k, t, now, ps[1..][j]);
    assert ps[i + 1] == p;
    forall j | 0 <= j < i + 1
      ensures !Counts(k, t, now, ps[j])
    {
      assert j == 0 || ps[j] == ps[1..][j - 1];
    }
  }

  /** The first counted pair heads the list of counted pairs. */
  lemma {:induction false} CountedHead(k: Crypto, t: Trust, now: Int64, ps: seq<Pair>)
    ensures CountedOf(k, t, now, ps) != [] ==> FirstCounted(k, t, now, ps, CountedOf(k, t, now, ps)[0])
    decreases |ps|
  {
    if ps != [] {
      if Counts(k, t, now, ps[0]) {
        assert ps[0] == CountedOf(k, t, now, ps)[0];
      } else {
        assert CountedOf(k, t, now, ps) == CountedOf(k, t, now, ps[1..]);
        CountedHead(k, t, now, ps[1..]);
        if CountedOf(k, t, now, ps) != [] {
          FirstCountedAfterSkip(k, t, now, ps, CountedOf(k, t, now, ps)[0]);
        }
      }
    }
  }

  lemma FirstCountedUnique(k: Crypto, t: Trust, now: Int64, ps: seq<Pair>, p: Pair, q: Pair)
    requires FirstCounted(k, t, now, ps, p) && FirstCounted(k, t, now, ps, q)
    ensures p == q
  {
    var i :| 0 <= i < |ps| && ps[i] == p && Counts(k, t, now, p)
      && forall j :: 0 <= j < i ==> !Counts(k, t, now, ps[j]);
    var j :| 0 <= j < |ps| && ps[j] == q && Counts(k, t, now, q)
      && forall i :: 0 <= i < j ==> !Counts(k, t, now, ps[i]);
    assert !(i < j) && !(j < i);
  }

  lemma ChainOkIff(k: Crypto, t: Trust, now: Int64, ps: seq<Pair>)
    ensures Chain(k, t, now, ps).Ok? <==> OneNode(k, t, now, ps)
  {
    var cs := CountedOf(k, t, now, ps);
    if cs != [] {
      assert cs[0] in cs;
      if SameNode(k, cs) {
        forall p, q | p in ps && q in ps && Counts(k, t, now, p) && Counts(k, t, now, q)
          ensures k.nodeID(p.body.pub) == k.nodeID(q.body.pub)
        {
          assert p in cs && q in cs;
        }
      } else {
        var i :| 0 <= i < |cs| && k.nodeID(cs[i].body.pub) != k.nodeID(cs[0].body.pub);
        assert cs[i] in cs;
      }
    }
  }

  lemma ChainOwners(k: Crypto, t: Trust, now: Int64, ps: seq<Pair>, h: Bytes)
    requires Chain(k, t, now, ps).Ok?
    ensures h in Chain(k, t, now, ps).value.userHashes <==>
            exists p :: p in ps && Counts(k, t, now, p) && !AdminIssued(t, p) && p.body.issuer == h
  {
    var cs := CountedOf(k, t, now, ps);
    UserIssuersMember(t, cs, h);
    if p :| p in ps && Counts(k, t, now, p) && !AdminIssued(t, p) && p.body.issuer == h {
      assert p in cs;
    }
  }

  /** The chain succeeds exactly when the counted certificates certify one node; its result describes them. */
  lemma ChainIff(k: Crypto, t: Trust, now: Int64, ps: seq<Pair>)
    ensures Chain(k, t, now, ps).Ok? <==> OneNode(k, t, now, ps)
    ensures Chain(k, t, now, ps).Ok? ==>
      var r := Chain(k, t, now, ps).value;
      && (exists p :: FirstCounted(k, t, now, ps, p) && p.body.pub == r.pub)
      && (forall p :: p in ps && Counts(k, t, now, p) ==> k.nodeID(p.body.pub) == Some(r.nodeID))
      && (r.adminValid <==> exists p :: p in ps && Counts(k, t, now, p) && AdminIssued(t, p))
      && (forall h :: h in r.userHashes <==>
          exists p :: p in ps && Counts(k, t, now, p) && !AdminIssued(t, p) && p.body.issuer == h)
  {
    ChainOkIff(k, t, now, ps);
    CountedHead(k, t, now, ps);
    if Chain(k, t, now, ps).Ok? {
      var cs := CountedOf(k, t, now, ps);
      assert cs[0] in cs;
      forall h
        ensures h in Chain(k, t, now, ps).value.userHashes <==>
                exists p :: p in ps && Counts(k, t, now, p) && !AdminIssued(t, p) && p.body.issuer == h
      {
        ChainOwners(k, t, now, ps, h);
      }
      if p :| p in ps && Counts(k, t, now, p) && AdminIssued(t, p) {
        assert p in cs;
      }
    }
  }

  ghost function CountedSet(k: Crypto, t: Trust, now: Int64, ps: seq<Pair>): set<Pair> {
    set p | p in ps && Counts(k, t, now, p)
  }

  lemma ExtendedIsEmbedded(k: Crypto, t: Trust, hs: PeerHandshake)
    ensures Extended(k, t, hs) == WithEmbeddedAuthorities(k, t, hs.authorities)
  {
  }

  /** The pairs counted over the extended snapshot are the certified ones. */
  lemma CertifiedAreCounted(k: Crypto, t: Trust, hs: PeerHandshake, now: Int64)
    requires |hs.certs| == |hs.caSigs| && Extended(k, t, hs).Ok?
    ensures CertifiedPairs(k, t, hs, now) == CountedSet(k, Extended(k, t, hs).value, now, Pairs(hs))
  {
    ExtendedIsEmbedded(k, t, hs);
    forall p | p in Pairs(hs)
      ensures Certified(k, t, hs.authorities, now, p) <==> Counts(k, Extended(k, t, hs).value, now, p)
    {
      CountsIff(k, t, hs.authorities, now, p);
    }
  }

  lemma FirstOfIff(k: Crypto, t: Trust, now: Int64, ps: seq<Pair>, p: Pair)
    ensures FirstOf(ps, CountedSet(k, t, now, ps), p) <==> FirstCounted(k, t, now, ps, p)
  {
  }

  lemma OneNodeIff(k: Crypto, t: Trust, now: Int64, ps: seq<Pair>)
    ensures OfOneNode(k, CountedSet(k, t, now, ps)) <==> Chain(k, t, now, ps).Ok?
  {
    ChainOkIff(k, t, now, ps);
    if p :| p in ps && Counts(k, t, now, p) {
      assert p in CountedSet(k, t, now, ps);
    }
  }

  /** The chain's key is that of the first counted pair. */
  lemma FirstKey(k: Crypto, t: Trust, now: Int64, ps: seq<Pair>) returns (first: Pair)
    requires Chain(k, t, now, ps).Ok?
    ensures first.body.pub == Chain(k, t, now, ps).value.pub
    ensures forall p :: FirstOf(ps, CountedSet(k, t, now, ps), p) <==> p == first
  {
    ChainIff(k, t, now, ps);
    first :| FirstCounted(k, t, now, ps, first) && first.body.pub == Chain(k, t, now, ps).value.pub;
    forall p
      ensures FirstOf(ps, CountedSet(k, t, now, ps), p) <==> p == first
    {
      FirstOfIff(k, t, now, ps, p);
      if FirstCounted(k, t, now, ps, p) {
        FirstCountedUnique(k, t, now, ps, p, first);
      }
    }
  }

  /** The chain and the proof pass exactly when the counted pairs are accepted on. */
  lemma AcceptsOnIff(k: Crypto, t: Trust, hs: PeerHandshake, now: Int64)
    requires |hs.certs| == |hs.caSigs| && hs.proof.Some?
    ensures AcceptsOn(k, hs, now, CountedSet(k, t, now, Pairs(hs))) <==>
      Chain(k, t, now, Pairs(hs)).Ok? && ProofError(k, Chain(k, t, now, Pairs(hs)).value.pub, hs, now).None?
  {
    OneNodeIff(k, t, now, Pairs(hs));
    if Chain(k, t, now, Pairs(hs)).Ok? {
      var first := FirstKey(k, t, now, Pairs(hs));
      ProofIff(k, first.body.pub, hs, now);
    }
  }

  /** VerifyPeerCert accepts exactly what the declarative conditions describe. */
  lemma VerifyIff(k: Crypto, t: Trust, hs: PeerHandshake, now: Int64)
    ensures Verify(k, t, hs, now).Ok? <==> Accepts(k, t, hs, now)
  {
    SnapshotErrorIff(k, hs.certs);
    ExtendedIsEmbedded(k, t, hs);
    AuthoritiesIff(k, t, hs.authorities);
    if WellShaped(hs) && CertsConsistent(k, hs.certs) && Extended(k, t, hs).Ok? {
      CertifiedAreCounted(k, t, hs, now);
      AcceptsOnIff(k, Extended(k, t, hs).value, hs, now);
    }
  }

  predicate CanAccess(ctx: AuthContext, owner: Bytes) {
    CanAccessData(ContextFor(ctx.scope, ctx.owners), owner)
  }

  lemma VerifyUsesChain(k: Crypto, t: Trust, hs: PeerHandshake, now: Int64)
    requires Verify(k, t, hs, now).Ok?
    ensures |hs.certs| == |hs.caSigs| && Extended(k, t, hs).Ok?
    ensures Chain(k, Extended(k, t, hs).value, now, Pairs(hs)).Ok?
    ensures Verify(k, t, hs, now).value == DeriveScope(Chain(k, Extended(k, t, hs).value, now, Pairs(hs)).value)
  {
  }

  /** Past the shape checks, the verdict is that of the chain and of the proof. */
  lemma VerifyStages(k: Crypto, t: Trust, hs: PeerHandshake, now: Int64)
    requires WellShaped(hs) && CertsConsistent(k, hs.certs)
    ensures Verify(k, t, hs, now).Ok? <==>
      && Extended(k, t, hs).Ok?
      && Chain(k, Extended(k, t, hs).value, now, Pairs(hs)).Ok?
      && ProofError(k, Chain(k, Extended(k, t, hs).value, now, Pairs(hs)).value.pub, hs, now).None?
    ensures Verify(k, t, hs, now).Ok? ==>
      Verify(k, t, hs, now).value.nodeID == Chain(k, Extended(k, t, hs).value, now, Pairs(hs)).value.nodeID
  {
    SnapshotErrorIff(k, hs.certs);
  }

  /** What the chain establishes, in terms of the set of counted pairs. */
  lemma ChainRights(k: Crypto, t: Trust, now: Int64, ps: seq<Pair>, owner: Bytes)
    requires Chain(k, t, now, ps).Ok?
    ensures
      var r, good := Chain(k, t, now, ps).value, CountedSet(k, t, now, ps);
      && (r.adminValid <==> exists p :: p in good && AdminIssued(t, p))
      && (forall p :: p in good ==> k.nodeID(p.body.pub) == Some(r.nodeID))
      && (owner in r.userHashes <==> exists p :: p in good && !AdminIssued(t, p) && p.body.issuer == owner)
  {
    var r, good := Chain(k, t, now, ps).value, CountedSet(k, t, now, ps);
    ChainIff(k, t, now, ps);
    if r.adminValid {
      var p :| p in ps && Counts(k, t, now, p) && AdminIssued(t, p);
      assert p in good;
    }
    if owner in r.userHashes {
      var p :| p in ps && Counts(k, t, now, p) && !AdminIssued(t, p) && p.body.issuer == owner;
      assert p in good;
    }
  }

  /** Every certified pair of an accepted handshake is of the accepted node. */
  lemma AcceptedNode(k: Crypto, t: Trust, hs: PeerHandshake, now: Int64, p: Pair)
    requires |hs.certs| == |hs.caSigs|
    ensures Verify(k, t, hs, now).Ok? && p in CertifiedPairs(k, t, hs, now) ==>
      k.nodeID(p.body.pub) == Some(Verify(k, t, hs, now).value.nodeID)
  {
    if Verify(k, t, hs, now).Ok? {
      VerifyUsesChain(k, t, hs, now);
      CertifiedAreCounted(k, t, hs, now);
      ChainRights(k, Extended(k, t, hs).value, now, Pairs(hs), []);
    }
  }

  /** The rights of an accepted peer are exactly those its certified pairs give. */
  lemma RightsIff(k: Crypto, t: Trust, hs: PeerHandshake, now: Int64, owner: Bytes)
    requires Consistent(k, t)
    requires Verify(k, t, hs, now).Ok?
    ensures |hs.certs| == |hs.caSigs|
    ensures
      var ctx, good := Verify(k, t, hs, now).value, CertifiedPairs(k, t, hs, now);
      && (ctx.scope == ScopeAdmin <==> exists p :: p in good && AdminIssued(t, p))
      && (forall p :: p in good ==> k.nodeID(p.body.pub) == Some(ctx.nodeID))
      && (CanAccess(ctx, owner) <==> ctx.scope == ScopeAdmin || exists p :: p in good && p.body.issuer == owner)
      && (ctx.hasValidAdminCert <==> ctx.scope == ScopeAdmin)
      && (owner in ctx.owners <==> ctx.scope == ScopeUser && exists p :: p in good && p.body.issuer == owner)
  {
    VerifyUsesChain(k, t, hs, now);
    CertifiedAreCounted(k, t, hs, now);
    var ext := Extended(k, t, hs).value;
    ChainRights(k, ext, now, Pairs(hs), owner);
    if |hs.authorities| > 0 {
      EmbeddedAuthoritiesExtend(k, t, hs.authorities);
    }
    assert forall p :: AdminIssued(t, p) <==> AdminIssued(ext, p);
    if p :| p in CertifiedPairs(k, t, hs, now) && p.body.issuer == owner {
      IssuersAreNamed(k, t, hs, owner);
    }
  }

  /** No CA is ever filed under the empty hash. */
  lemma IssuersAreNamed(k: Crypto, t: Trust, hs: PeerHandshake, h: Bytes)
    requires Consistent(k, t) && Extended(k, t, hs).Ok?
    ensures KnownIssuer(Extended(k, t, hs).value, h) ==> h != []
  {
    assert [] !in t.adminCAs && [] !in t.userCAs;
    if |hs.authorities| > 0 {
      EmbeddedAuthoritiesExtend(k, t, hs.authorities);
      EmbeddedUsersNamed(k, t, hs.authorities);
    }
  }

  lemma {:induction false} EmbeddedUsersNamed(k: Crypto, t: Trust, authorities: seq<EmbeddedCA>)
    requires AddEmbeddedUsers(k, t, authorities).Ok?
    requires [] !in t.userCAs
    ensures [] !in AddEmbeddedUsers(k, t, authorities).value.userCAs
    decreases |authorities|
  {
    if authorities != [] {
      var next := if authorities[0].kind == USER_CA then AddEmbeddedUser(k, t, authorities[0]) else Ok(t);
      EmbeddedUsersNamed(k, next.value, authorities[1..]);
    }
  }
}
