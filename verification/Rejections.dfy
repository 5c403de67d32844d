/**
Why VerifyPeerCert (internal/auth/carrier_auth_verify.go) rejects: the first condition that
fails, in the order in which they are checked, decides the error.
 */
module Rejections {
  import opened Base
  import opened Keys
  import opened Canonical
  import opened TrustStore
  import opened TrustSnapshot
  import opened Certification
  import opened PeerVerification

  /** The shape of a handshake is judged before anything else. */
  lemma ShapeReason(k: Crypto, t: Trust, hs: PeerHandshake, now: Int64)
    ensures var r := Verify(k, t, hs, now);
            && (|hs.certs| == 0 ==> r == Err(ErrNoCerts))
            && (|hs.certs| > 1024 ==> r == Err(ErrBundleTooLarge))
            && (1 <= |hs.certs| <= 1024 ==>
                  && (|hs.caSigs| != |hs.certs| ==> r == Err(ErrSignatureCountMismatch))
                  && (|hs.caSigs| == |hs.certs| && hs.proof.None? ==> r == Err(ErrNilDelegationProof))
                  && (|hs.caSigs| == |hs.certs| && hs.proof.Some? && hs.delegationSig == [] ==>
                        r == Err(ErrInvalidDelegationSig)))
  {
  }

  /** What is wrong with one certificate. */
  ghost function CertFault(k: Crypto, c: Option<NodeCert>): Option<AuthError> {
    if c.None? then Some(ErrNilCertEntry)
    else if c.value.body.version != 1 then Some(ErrUnsupportedCertVersion)
    else if k.nodeID(c.value.body.pub).None? then Some(ErrNodeIDDerivation)
    else if k.nodeID(c.value.body.pub) != Some(c.value.nodeID) then Some(ErrStatefulCert)
    else None
  }

  /** Certificate i is faulty and none before it is. */
  ghost predicate FirstFault(k: Crypto, certs: seq<Option<NodeCert>>, i: int) {
    0 <= i < |certs| && CertFault(k, certs[i]).Some? && forall j :: 0 <= j < i ==> CertFault(k, certs[j]).None?
  }

  lemma {:induction false} FirstFaultDecides(k: Crypto, certs: seq<Option<NodeCert>>, i: int)
    requires FirstFault(k, certs, i)
    ensures CertsSnapshotError(k, certs) == CertFault(k, certs[i])
    decreases |certs|
  {
    if i > 0 {
      assert CertFault(k, certs[0]).None?;
      assert forall j :: 0 <= j < i - 1 ==> certs[1..][j] == certs[j + 1];
      FirstFaultDecides(k, certs[1..], i - 1);
    }
  }

  /** A well-shaped handshake with a faulty certificate is rejected for the first of them. */
  lemma CertReason(k: Crypto, t: Trust, hs: PeerHandshake, now: Int64, i: int)
    requires WellShaped(hs) && FirstFault(k, hs.certs, i)
    ensures Verify(k, t, hs, now) == Err(CertFault(k, hs.certs[i]).value)
  {
    FirstFaultDecides(k, hs.certs, i);
  }

  // ----- Authorities -----

  /** What is wrong with a supplied admin. */
  ghost function AdminFault(k: Crypto, t: Trust, a: EmbeddedCA): Option<AuthError> {
    var pub := SuppliedKey(k, a);
    if pub.None? then Some(ErrInvalidKey)
    else if CAHash(k, pub.value) in t.revokedAdmins then Some(ErrCARevoked)
    else if CAHash(k, pub.value) !in t.adminCAs then Some(ErrUnknownIssuer)
    else None
  }

  /** What is wrong with a supplied user CA. */
  ghost function UserFault(k: Crypto, t: Trust, a: EmbeddedCA): Option<AuthError> {
    var pub := SuppliedKey(k, a);
    if pub.None? then Some(ErrInvalidKey)
    else if CAHash(k, pub.value) in t.revokedUsers then Some(ErrCARevoked)
    else if CAHash(k, pub.value) in t.userCAs then None
    else if a.anchorAdmin !in t.adminCAs then Some(ErrAnchorAdminNotFound)
    else if a.anchorAdmin in t.revokedAdmins then Some(ErrAnchorAdminRevoked)
    else if !k.verify(t.adminCAs[a.anchorAdmin].pub, AnchorMessage(pub.value), a.anchorSig)
    then Some(ErrInvalidAnchorSig)
    else None
  }

  lemma FaultsDecide(k: Crypto, t: Trust, a: EmbeddedCA)
    ensures EmbeddedAdminError(k, t, a) == AdminFault(k, t, a)
    ensures UserFault(k, t, a) == match AddEmbeddedUser(k, t, a) case Err(e) => Some(e) case Ok(_) => None
  {
    if SuppliedKey(k, a).Some? {
      SplitMarshalRoundTrip(k, SuppliedKey(k, a).value);
    }
  }

  lemma {:induction false} AdminsStop(k: Crypto, t: Trust, before: seq<EmbeddedCA>, a: EmbeddedCA,
                                      after: seq<EmbeddedCA>)
    requires a.kind == ADMIN_CA && EmbeddedAdminsError(k, t, before).None? && AdminFault(k, t, a).Some?
    ensures EmbeddedAdminsError(k, t, before + [a] + after) == AdminFault(k, t, a)
    decreases |before|
  {
    var all := before + [a] + after;
    if before == [] {
      FaultsDecide(k, t, a);
      assert all[0] == a;
    } else {
      assert all[0] == before[0] && all[1..] == before[1..] + [a] + after;
      AdminsStop(k, t, before[1..], a, after);
    }
  }

  lemma {:induction false} UsersStop(k: Crypto, t: Trust, before: seq<EmbeddedCA>, a: EmbeddedCA,
                                     after: seq<EmbeddedCA>)
    requires a.kind == USER_CA && AddEmbeddedUsers(k, t, before).Ok?
    requires UserFault(k, AddEmbeddedUsers(k, t, before).value, a).Some?
    ensures AddEmbeddedUsers(k, t, before + [a] + after) ==
      Err(UserFault(k, AddEmbeddedUsers(k, t, before).value, a).value)
    decreases |before|
  {
    var all := before + [a] + after;
    if before == [] {
      FaultsDecide(k, t, a);
      assert all[0] == a;
    } else {
      var next := if before[0].kind == USER_CA then AddEmbeddedUser(k, t, before[0]) else Ok(t);
      assert all[0] == before[0] && all[1..] == before[1..] + [a] + after;
      UsersStop(k, next.value, before[1..], a, after);
    }
  }

  /**
  Acceptable certificates with unacceptable authorities: the first faulty admin decides, and
  if there is none, the first user CA that is faulty beside those added before it.
   */
  lemma AuthorityReason(k: Crypto, t: Trust, hs: PeerHandshake, now: Int64,
                        before: seq<EmbeddedCA>, a: EmbeddedCA, after: seq<EmbeddedCA>)
    requires WellShaped(hs) && CertsConsistent(k, hs.certs) && hs.authorities == before + [a] + after
    ensures a.kind == ADMIN_CA && EmbeddedAdminsError(k, t, before).None? && AdminFault(k, t, a).Some? ==>
      Verify(k, t, hs, now) == Err(AdminFault(k, t, a).value)
    ensures
      (&& a.kind == USER_CA && EmbeddedAdminsError(k, t, hs.authorities).None? && AddEmbeddedUsers(k, t, before).Ok?
       && UserFault(k, AddEmbeddedUsers(k, t, before).value, a).Some?) ==>
        Verify(k, t, hs, now) == Err(UserFault(k, AddEmbeddedUsers(k, t, before).value, a).value)
  {
    SnapshotErrorIff(k, hs.certs);
    if a.kind == ADMIN_CA && EmbeddedAdminsError(k, t, before).None? && AdminFault(k, t, a).Some? {
      AdminsStop(k, t, before, a, after);
    }
    if a.kind == USER_CA && AddEmbeddedUsers(k, t, before).Ok?
       && UserFault(k, AddEmbeddedUsers(k, t, before).value, a).Some? {
      UsersStop(k, t, before, a, after);
    }
  }

  // ----- Chain and proof -----

  /** The input is in order, the authorities are acceptable. */
  ghost predicate Presentable(k: Crypto, t: Trust, hs: PeerHandshake) {
    WellShaped(hs) && CertsConsistent(k, hs.certs) && AuthoritiesGood(k, t, hs.authorities)
  }

  lemma PresentableVerify(k: Crypto, t: Trust, hs: PeerHandshake, now: Int64)
    requires Presentable(k, t, hs)
    ensures Extended(k, t, hs).Ok?
    ensures Verify(k, t, hs, now) ==
      match Chain(k, Extended(k, t, hs).value, now, Pairs(hs))
      case Err(e) => Err(e)
      case Ok(r) =>
        match ProofError(k, r.pub, hs, now)
        case Some(e) => Err(e)
        case None => Ok(DeriveScope(r))
  {
    SnapshotErrorIff(k, hs.certs);
    ExtendedIsEmbedded(k, t, hs);
    AuthoritiesIff(k, t, hs.authorities);
  }

  /** Without a certified pair, or with pairs of two nodes, the chain decides. */
  lemma ChainReason(k: Crypto, t: Trust, hs: PeerHandshake, now: Int64)
    requires Presentable(k, t, hs)
    ensures CertifiedPairs(k, t, hs, now) == {} ==> Verify(k, t, hs, now) == Err(ErrNoValidCerts)
    ensures CertifiedPairs(k, t, hs, now) != {} && !OfOneNode(k, CertifiedPairs(k, t, hs, now)) ==>
      Verify(k, t, hs, now) == Err(ErrMismatchedNodeID)
  {
    PresentableVerify(k, t, hs, now);
    CertifiedAreCounted(k, t, hs, now);
    var ext := Extended(k, t, hs).value;
    OneNodeIff(k, ext, now, Pairs(hs));
    var cs := CountedOf(k, ext, now, Pairs(hs));
    assert cs != [] ==> cs[0] in cs && cs[0] in CountedSet(k, ext, now, Pairs(hs));
    if CertifiedPairs(k, t, hs, now) != {} {
      var p :| p in CertifiedPairs(k, t, hs, now);
      assert p in cs;
    }
  }

  /** The faults of a proof under a key, in the order in which they are looked for. */
  ghost function ProofFault(k: Crypto, pub: PublicKey, hs: PeerHandshake, now: Int64): Option<AuthError>
    requires hs.proof.Some?
  {
    var (p, tls) := (hs.proof.value, hs.tls);
    if !(&& |p.tlsCertPubKeyHash| == |p.tlsExporterBinding| == |p.tlsTranscriptHash| == |p.x509Fingerprint| == 32
         && |p.nodeCertBundleHash| == |tls.certPubKeyHash| == |tls.exporterBinding| == 32
         && |tls.x509Fingerprint| == |tls.transcriptHash| == 32)
    then Some(ErrInvalidBindingField)
    else if !k.verify(pub, DelegationMessage(p), hs.delegationSig) then Some(ErrInvalidDelegationSig)
    else if p.tlsCertPubKeyHash != tls.certPubKeyHash || p.x509Fingerprint != tls.x509Fingerprint
    then Some(ErrTLSBindingMismatch)
    else if !IssuersUtf8(Bodies(hs)) then Some(ErrCanonicalEncoding)
    else if p.nodeCertBundleHash != k.sha256(BundleBytes(Bodies(hs))) then Some(ErrBundleHashMismatch)
    else if !(p.notBefore <= now <= p.notAfter) then Some(ErrDelegationExpired)
    else if p.notAfter - p.notBefore > 300 then Some(ErrDelegationTooLong)
    else if p.tlsExporterBinding != tls.exporterBinding || p.tlsTranscriptHash != tls.transcriptHash
    then Some(ErrTLSBindingMismatch)
    else None
  }

  lemma ProofFaultDecides(k: Crypto, pub: PublicKey, hs: PeerHandshake, now: Int64)
    requires hs.proof.Some?
    ensures ProofError(k, pub, hs, now) == ProofFault(k, pub, hs, now)
  {
    BindingsSizedIff(hs.proof.value, hs.tls);
  }

  /** With certified pairs of one node, the proof decides, under the key of the first of them. */
  lemma ProofReason(k: Crypto, t: Trust, hs: PeerHandshake, now: Int64, first: Pair)
    requires Presentable(k, t, hs) && OfOneNode(k, CertifiedPairs(k, t, hs, now))
    requires FirstOf(Pairs(hs), CertifiedPairs(k, t, hs, now), first)
    ensures var fault := ProofFault(k, first.body.pub, hs, now);
            if fault.Some? then Verify(k, t, hs, now) == Err(fault.value) else Verify(k, t, hs, now).Ok?
  {
    PresentableVerify(k, t, hs, now);
    CertifiedAreCounted(k, t, hs, now);
    var ext := Extended(k, t, hs).value;
    OneNodeIff(k, ext, now, Pairs(hs));
    var f := FirstKey(k, ext, now, Pairs(hs));
    assert f == first;
    ProofFaultDecides(k, first.body.pub, hs, now);
  }
}
