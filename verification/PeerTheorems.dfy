/**
What VerifyPeerCert guarantees: an accepted peer was certified by a trusted or an anchored
CA, peer-supplied authorities confer no admin rights, the order of the certificates does
not matter, and a delegation proof lives at most five minutes.
 */
module PeerTheorems {
  import opened Base
  import opened Keys
  import opened Canonical
  import opened TrustStore
  import opened TrustSnapshot
  import opened Certification
  import opened Access
  import opened PeerVerification

  /** Two keys of the handshake collide on one node identifier. */
  ghost predicate BundleCollision(k: Crypto, bodies: seq<CertBody>) {
    exists c, d :: c in bodies && d in bodies && NodeIDCollision(k, c.pub, d.pub)
  }

  lemma PairsHoldBodies(hs: PeerHandshake, p: Pair)
    requires |hs.certs| == |hs.caSigs| && p in Pairs(hs)
    ensures p.body in Bodies(hs)
  {
    var i :| 0 <= i < |Pairs(hs)| && Pairs(hs)[i] == p;
    assert Bodies(hs)[i] == p.body;
  }

  // ----- Peer-supplied authorities -----

  /** Two chain results name the same node, through keys of the given pairs. */
  ghost predicate SameIdentity(k: Crypto, ps: seq<Pair>, r: AuthResult, s: AuthResult) {
    && r.nodeID == s.nodeID
    && k.nodeID(r.pub) == k.nodeID(s.pub) == Some(r.nodeID)
    && (exists p :: p in ps && p.body.pub == r.pub)
    && (exists p :: p in ps && p.body.pub == s.pub)
  }

  lemma IdentityOrCollision(k: Crypto, hs: PeerHandshake, r: AuthResult, s: AuthResult)
    requires |hs.certs| == |hs.caSigs| && SameIdentity(k, Pairs(hs), r, s)
    ensures r.pub == s.pub || BundleCollision(k, Bodies(hs))
  {
    var p :| p in Pairs(hs) && p.body.pub == r.pub;
    var q :| q in Pairs(hs) && q.body.pub == s.pub;
    PairsHoldBodies(hs, p);
    PairsHoldBodies(hs, q);
    if r.pub != s.pub {
      assert NodeIDCollision(k, p.body.pub, q.body.pub);
    }
  }

  lemma ChainKey(k: Crypto, t: Trust, now: Int64, ps: seq<Pair>)
    requires Chain(k, t, now, ps).Ok?
    ensures var r := Chain(k, t, now, ps).value;
            k.nodeID(r.pub) == Some(r.nodeID) && exists p :: p in ps && Counts(k, t, now, p) && p.body.pub == r.pub
  {
    var cs := CountedOf(k, t, now, ps);
    assert cs[0] in cs;
  }

  /** An admin chain over an extended snapshot is an admin chain of the same node over the original one. */
  lemma ExtensionAdminChain(k: Crypto, t: Trust, ext: Trust, now: Int64, ps: seq<Pair>)
    requires Extends(t, ext)
    requires Chain(k, ext, now, ps).Ok? && Chain(k, ext, now, ps).value.adminValid
    ensures Chain(k, t, now, ps).Ok? && Chain(k, t, now, ps).value.adminValid
    ensures SameIdentity(k, ps, Chain(k, ext, now, ps).value, Chain(k, t, now, ps).value)
  {
    ChainIff(k, ext, now, ps);
    ChainIff(k, t, now, ps);
    forall p | p in ps
      ensures Counts(k, t, now, p) ==> Counts(k, ext, now, p)
      ensures AdminIssued(t, p) <==> AdminIssued(ext, p)
      ensures AdminIssued(t, p) ==> (Counts(k, t, now, p) <==> Counts(k, ext, now, p))
    {
      ExtensionCounts(k, t, ext, now, p);
    }
    var admin :| admin in ps && Counts(k, ext, now, admin) && AdminIssued(ext, admin);
    assert Counts(k, t, now, admin);
    assert OneNode(k, t, now, ps);
    ChainKey(k, ext, now, ps);
    ChainKey(k, t, now, ps);
  }

  lemma ExtendedExtends(k: Crypto, t: Trust, hs: PeerHandshake)
    requires Extended(k, t, hs).Ok?
    ensures Extends(t, Extended(k, t, hs).value)
  {
    if |hs.authorities| > 0 {
      EmbeddedAuthoritiesExtend(k, t, hs.authorities);
    }
  }

  /** The proof checks do not look at the authorities. */
  lemma ProofIgnoresAuthorities(k: Crypto, pub: PublicKey, hs: PeerHandshake, now: Int64)
    requires hs.proof.Some?
    ensures ProofError(k, pub, hs.(authorities := []), now) == ProofError(k, pub, hs, now)
  {
    assert Bodies(hs.(authorities := [])) == Bodies(hs);
  }

  /** An accepted admin stays accepted, with the same result, when its embedded authorities are dropped. */
  lemma AuthoritiesConferNoAdmin(k: Crypto, t: Trust, hs: PeerHandshake, now: Int64)
    requires Verify(k, t, hs, now).Ok? && Verify(k, t, hs, now).value.scope == ScopeAdmin
    ensures Verify(k, t, hs.(authorities := []), now) == Verify(k, t, hs, now) || BundleCollision(k, Bodies(hs))
  {
    var bare := hs.(authorities := []);
    VerifyUsesChain(k, t, hs, now);
    var ext, ps := Extended(k, t, hs).value, Pairs(hs);
    assert Pairs(bare) == ps;
    ExtendedExtends(k, t, hs);
    ExtensionAdminChain(k, t, ext, now, ps);
    var r, s := Chain(k, ext, now, ps).value, Chain(k, t, now, ps).value;
    IdentityOrCollision(k, hs, r, s);
    ProofIgnoresAuthorities(k, r.pub, hs, now);
  }

  // ----- Order independence -----

  /** The same certificates with the same signatures, in any order; everything else unchanged. */
  ghost predicate Reordered(hs: PeerHandshake, hs': PeerHandshake) {
    && |hs.certs| == |hs.caSigs| && |hs'.certs| == |hs'.caSigs|
    && multiset(Presented(hs.certs, hs.caSigs)) == multiset(Presented(hs'.certs, hs'.caSigs))
    && hs' == hs.(certs := hs'.certs, caSigs := hs'.caSigs)
  }

  function Presented(certs: seq<Option<NodeCert>>, sigs: seq<Bytes>): (ps: seq<(Option<NodeCert>, Bytes)>)
    requires |certs| == |sigs|
    ensures |ps| == |certs|
    ensures forall i :: 0 <= i < |certs| ==> ps[i] == (certs[i], sigs[i])
  {
    if certs == [] then [] else [(certs[0], sigs[0])] + Presented(certs[1..], sigs[1..])
  }

  function PairOf(x: (Option<NodeCert>, Bytes)): Pair {
    Pair(BodyOf(x.0), x.1)
  }

  function PairBody(p: Pair): CertBody {
    p.body
  }

  lemma PresentedPairs(hs: PeerHandshake)
    requires |hs.certs| == |hs.caSigs|
    ensures MapSeq(PairOf, Presented(hs.certs, hs.caSigs)) == Pairs(hs)
    ensures MapSeq(PairBody, Pairs(hs)) == Bodies(hs)
  {
    assert |Pairs(hs)| == |hs.certs|;
  }

  lemma ReorderedPairs(hs: PeerHandshake, hs': PeerHandshake)
    requires Reordered(hs, hs')
    ensures multiset(Pairs(hs)) == multiset(Pairs(hs'))
    ensures multiset(Bodies(hs)) == multiset(Bodies(hs'))
  {
    PresentedPairs(hs);
    PresentedPairs(hs');
    MapPermutation(PairOf, Presented(hs.certs, hs.caSigs), Presented(hs'.certs, hs'.caSigs));
    MapPermutation(PairBody, Pairs(hs), Pairs(hs'));
  }

  lemma ReorderedCerts(k: Crypto, hs: PeerHandshake, hs': PeerHandshake)
    requires Reordered(hs, hs')
    ensures |hs.certs| == |hs'.certs|
    ensures CertsConsistent(k, hs.certs) ==> CertsConsistent(k, hs'.certs)
  {
    var xs, ys := Presented(hs.certs, hs.caSigs), Presented(hs'.certs, hs'.caSigs);
    EmptyPermutation(xs, ys);
    forall c | c in hs'.certs
      ensures c in hs.certs
    {
      var i :| 0 <= i < |hs'.certs| && hs'.certs[i] == c;
      assert ys[i] in multiset(ys);
      assert ys[i] in multiset(xs);
      var j :| 0 <= j < |xs| && xs[j] == ys[i];
      assert hs.certs[j] == c;
    }
  }

  lemma {:induction false} CountedMultiplicity(k: Crypto, t: Trust, now: Int64, ps: seq<Pair>, p: Pair)
    ensures multiset(CountedOf(k, t, now, ps))[p] == if Counts(k, t, now, p) then multiset(ps)[p] else 0
    decreases |ps|
  {
    if ps != [] {
      CountedMultiplicity(k, t, now, ps[1..], p);
      HeadMultiset(ps);
      var head := if Counts(k, t, now, ps[0]) then [ps[0]] else [];
      assert CountedOf(k, t, now, ps) == head + CountedOf(k, t, now, ps[1..]);
    }
  }

  lemma CountedPermutation(k: Crypto, t: Trust, now: Int64, ps: seq<Pair>, qs: seq<Pair>)
    requires multiset(ps) == multiset(qs)
    ensures multiset(CountedOf(k, t, now, ps)) == multiset(CountedOf(k, t, now, qs))
  {
    forall p
      ensures multiset(CountedOf(k, t, now, ps))[p] == multiset(CountedOf(k, t, now, qs))[p]
    {
      CountedMultiplicity(k, t, now, ps, p);
      CountedMultiplicity(k, t, now, qs, p);
    }
  }

  function NonAdmin(t: Trust, cs: seq<Pair>): seq<Pair>
    decreases |cs|
  {
    if cs == [] then [] else (if AdminIssued(t, cs[0]) then [] else [cs[0]]) + NonAdmin(t, cs[1..])
  }

  function IssuerOf(p: Pair): Bytes {
    p.body.issuer
  }

  lemma {:induction false} UserIssuersMapped(t: Trust, cs: seq<Pair>)
    ensures UserIssuers(t, cs) == MapSeq(IssuerOf, NonAdmin(t, cs))
    decreases |cs|
  {
    if cs != [] {
      UserIssuersMapped(t, cs[1..]);
      MapSeqAppend(IssuerOf, if AdminIssued(t, cs[0]) then [] else [cs[0]], NonAdmin(t, cs[1..]));
    }
  }

  lemma {:induction false} NonAdminMultiplicity(t: Trust, cs: seq<Pair>, p: Pair)
    ensures multiset(NonAdmin(t, cs))[p] == if AdminIssued(t, p) then 0 else multiset(cs)[p]
    decreases |cs|
  {
    if cs != [] {
      NonAdminMultiplicity(t, cs[1..], p);
      HeadMultiset(cs);
      var head := if AdminIssued(t, cs[0]) then [] else [cs[0]];
      assert NonAdmin(t, cs) == head + NonAdmin(t, cs[1..]);
    }
  }

  lemma UserIssuersPermutation(t: Trust, cs: seq<Pair>, ds: seq<Pair>)
    requires multiset(cs) == multiset(ds)
    ensures multiset(UserIssuers(t, cs)) == multiset(UserIssuers(t, ds))
  {
    forall p
      ensures multiset(NonAdmin(t, cs))[p] == multiset(NonAdmin(t, ds))[p]
    {
      NonAdminMultiplicity(t, cs, p);
      NonAdminMultiplicity(t, ds, p);
    }
    MapPermutation(IssuerOf, NonAdmin(t, cs), NonAdmin(t, ds));
    UserIssuersMapped(t, cs);
    UserIssuersMapped(t, ds);
  }

  lemma SameMembers<A>(s: seq<A>, t: seq<A>)
    requires multiset(s) == multiset(t)
    ensures forall x :: x in s <==> x in t
  {
    forall x
      ensures x in s <==> x in t
    {
      assert x in s <==> x in multiset(s);
      assert x in t <==> x in multiset(t);
    }
  }

  /** Reordering does not change whether the chain succeeds, nor whom and what it establishes. */
  lemma ChainReordered(k: Crypto, t: Trust, now: Int64, ps: seq<Pair>, qs: seq<Pair>)
    requires forall p :: p in ps <==> p in qs
    requires Chain(k, t, now, ps).Ok?
    ensures Chain(k, t, now, qs).Ok?
    ensures Chain(k, t, now, ps).value.adminValid == Chain(k, t, now, qs).value.adminValid
    ensures SameIdentity(k, ps, Chain(k, t, now, ps).value, Chain(k, t, now, qs).value)
  {
    ChainIff(k, t, now, ps);
    ChainIff(k, t, now, qs);
    assert OneNode(k, t, now, qs);
    ChainKey(k, t, now, ps);
    ChainKey(k, t, now, qs);
  }

  lemma OwnersReordered(k: Crypto, t: Trust, now: Int64, ps: seq<Pair>, qs: seq<Pair>)
    requires multiset(ps) == multiset(qs)
    requires Chain(k, t, now, ps).Ok? && Chain(k, t, now, qs).Ok?
    ensures multiset(Chain(k, t, now, ps).value.userHashes) == multiset(Chain(k, t, now, qs).value.userHashes)
  {
    CountedPermutation(k, t, now, ps, qs);
    UserIssuersPermutation(t, CountedOf(k, t, now, ps), CountedOf(k, t, now, qs));
  }

  lemma Utf8Permutation(bs: seq<CertBody>, cs: seq<CertBody>)
    requires multiset(bs) == multiset(cs) && IssuersUtf8(bs)
    ensures IssuersUtf8(cs)
  {
    forall i | 0 <= i < |cs|
      ensures ValidUtf8(cs[i].issuer)
    {
      assert cs[i] in multiset(cs);
      assert cs[i] in multiset(bs);
    }
  }

  ghost predicate SameRights(a: AuthContext, b: AuthContext) {
    && a.nodeID == b.nodeID
    && a.scope == b.scope
    && a.hasValidAdminCert == b.hasValidAdminCert
    && multiset(a.owners) == multiset(b.owners)
  }

  lemma ReorderedProof(k: Crypto, pub: PublicKey, hs: PeerHandshake, hs': PeerHandshake, now: Int64)
    requires Reordered(hs, hs') && hs.proof.Some? && ProofError(k, pub, hs, now).None?
    ensures ProofError(k, pub, hs', now).None?
  {
    ReorderedPairs(hs, hs');
    BundleBytesIff(Bodies(hs), Bodies(hs'));
    ProofIff(k, pub, hs, now);
    ProofIff(k, pub, hs', now);
    Utf8Permutation(Bodies(hs), Bodies(hs'));
  }

  lemma ReorderedShape(k: Crypto, hs: PeerHandshake, hs': PeerHandshake)
    requires Reordered(hs, hs') && WellShaped(hs) && CertsConsistent(k, hs.certs)
    ensures WellShaped(hs') && CertsConsistent(k, hs'.certs)
  {
    ReorderedCerts(k, hs, hs');
  }

  /** What the chains of two orders have in common. */
  ghost predicate Alike(k: Crypto, ps: seq<Pair>, r: AuthResult, s: AuthResult) {
    SameIdentity(k, ps, r, s) && r.adminValid == s.adminValid && multiset(r.userHashes) == multiset(s.userHashes)
  }

  lemma ChainsAlike(k: Crypto, t: Trust, now: Int64, hs: PeerHandshake, hs': PeerHandshake)
    requires Reordered(hs, hs') && Chain(k, t, now, Pairs(hs)).Ok?
    ensures Chain(k, t, now, Pairs(hs')).Ok?
    ensures Alike(k, Pairs(hs), Chain(k, t, now, Pairs(hs)).value, Chain(k, t, now, Pairs(hs')).value)
  {
    ReorderedPairs(hs, hs');
    SameMembers(Pairs(hs), Pairs(hs'));
    ChainReordered(k, t, now, Pairs(hs), Pairs(hs'));
    OwnersReordered(k, t, now, Pairs(hs), Pairs(hs'));
  }

  lemma AlikeRights(k: Crypto, ps: seq<Pair>, r: AuthResult, s: AuthResult)
    requires Alike(k, ps, r, s)
    ensures SameRights(DeriveScope(r), DeriveScope(s))
  {
  }

  lemma ReorderedAccepted(k: Crypto, t: Trust, hs: PeerHandshake, hs': PeerHandshake, now: Int64)
    requires Reordered(hs, hs')
    requires Verify(k, t, hs, now).Ok?
    ensures BundleCollision(k, Bodies(hs)) || Verify(k, t, hs', now).Ok?
    ensures Verify(k, t, hs', now).Ok? ==> SameRights(Verify(k, t, hs, now).value, Verify(k, t, hs', now).value)
  {
    VerifyIff(k, t, hs, now);
    ReorderedShape(k, hs, hs');
    VerifyStages(k, t, hs, now);
    VerifyStages(k, t, hs', now);
    var ext := Extended(k, t, hs).value;
    ChainsAlike(k, ext, now, hs, hs');
    var r, s := Chain(k, ext, now, Pairs(hs)).value, Chain(k, ext, now, Pairs(hs')).value;
    AlikeRights(k, Pairs(hs), r, s);
    IdentityOrCollision(k, hs, r, s);
    if r.pub == s.pub {
      ReorderedProof(k, r.pub, hs, hs', now);
    }
    if Verify(k, t, hs', now).Ok? {
      VerifyUsesChain(k, t, hs', now);
    }
    VerifyUsesChain(k, t, hs, now);
  }

  lemma ReorderedSymmetric(hs: PeerHandshake, hs': PeerHandshake)
    requires Reordered(hs, hs')
    ensures Reordered(hs', hs)
  {
  }

  lemma ReorderedCollision(k: Crypto, hs: PeerHandshake, hs': PeerHandshake)
    requires Reordered(hs, hs')
    ensures BundleCollision(k, Bodies(hs')) ==> BundleCollision(k, Bodies(hs))
  {
    ReorderedPairs(hs, hs');
    SameMembers(Bodies(hs), Bodies(hs'));
  }

  /** The order of the (certificate, signature) pairs changes neither acceptance nor rights. */
  lemma OrderIndependence(k: Crypto, t: Trust, hs: PeerHandshake, hs': PeerHandshake, now: Int64)
    requires Reordered(hs, hs')
    ensures BundleCollision(k, Bodies(hs)) || (Verify(k, t, hs, now).Ok? <==> Verify(k, t, hs', now).Ok?)
    ensures Verify(k, t, hs, now).Ok? && Verify(k, t, hs', now).Ok? ==>
      SameRights(Verify(k, t, hs, now).value, Verify(k, t, hs', now).value)
  {
    if Verify(k, t, hs, now).Ok? {
      ReorderedAccepted(k, t, hs, hs', now);
    } else if Verify(k, t, hs', now).Ok? {
      ReorderedSymmetric(hs, hs');
      ReorderedAccepted(k, t, hs', hs, now);
      ReorderedCollision(k, hs, hs');
    }
  }

  // ----- The chain of trust -----

  /**
  For every store that a history can reach: an accepted peer presented a certificate of its
  own node, signed by a trusted admin or by a user CA that the store or the handshake shows
  with a trusted admin's signature, and the key of that certificate delegated to this very
  TLS session.
   */
  lemma AcceptedIsCertified(k: Crypto, ops: seq<Op>, hs: PeerHandshake, now: Int64)
    ensures
      var t := Run(k, EMPTY_TRUST, ops);
      Verify(k, t, hs, now).Ok? ==>
        && |hs.certs| == |hs.caSigs| && hs.proof.Some? && Bound(hs.proof.value, hs.tls)
        && exists p: Pair, ca: PublicKey ::
             && p in Pairs(hs)
             && k.nodeID(p.body.pub) == Some(Verify(k, t, hs, now).value.nodeID)
             && CertifiedBy(k, t, hs.authorities, ca, p)
             && k.verify(p.body.pub, DelegationMessage(hs.proof.value), hs.delegationSig)
  {
    var t := Run(k, EMPTY_TRUST, ops);
    RunKeepsConsistent(k, EMPTY_TRUST, ops);
    if Verify(k, t, hs, now).Ok? {
      VerifyIff(k, t, hs, now);
      RightsIff(k, t, hs, now, []);
      var good := CertifiedPairs(k, t, hs, now);
      var p :| FirstOf(Pairs(hs), good, p) && k.verify(p.body.pub, DelegationMessage(hs.proof.value), hs.delegationSig);
      AuthoritiesIff(k, t, hs.authorities);
      CountsIff(k, t, hs.authorities, now, p);
      CountedIsCertified(k, t, hs.authorities, now, p);
      var ca: PublicKey :| CertifiedBy(k, t, hs.authorities, ca, p);
      assert p in Pairs(hs) && k.nodeID(p.body.pub) == Some(Verify(k, t, hs, now).value.nodeID);
    }
  }

  // ----- Delegation proofs -----

  /** Over any two acceptances of one proof, in any stores and handshakes, the clocks differ by at most five minutes. */
  lemma ProofLifetime(k: Crypto, t: Trust, hs: PeerHandshake, now: Int64, t': Trust, hs': PeerHandshake, now': Int64)
    ensures Verify(k, t, hs, now).Ok? && Verify(k, t', hs', now').Ok? && hs.proof == hs'.proof ==>
      && hs.proof.Some?
      && -300 <= now - now' <= 300
      && 0 <= hs.proof.value.notAfter - hs.proof.value.notBefore <= 300
  {
    VerifyIff(k, t, hs, now);
    VerifyIff(k, t', hs', now');
  }

  /** Over any two acceptances of one proof the certificates are the same, or SHA-256 has a collision. */
  lemma ProofFixesBundle(k: Crypto, t: Trust, hs: PeerHandshake, now: Int64, t': Trust, hs': PeerHandshake, now': Int64)
    ensures Verify(k, t, hs, now).Ok? && Verify(k, t', hs', now').Ok? && hs.proof == hs'.proof ==>
      multiset(Bodies(hs)) == multiset(Bodies(hs'))
        || HashCollision(k, BundleBytes(Bodies(hs)), BundleBytes(Bodies(hs')))
  {
    VerifyIff(k, t, hs, now);
    VerifyIff(k, t', hs', now');
    BundleBytesIff(Bodies(hs), Bodies(hs'));
  }
}
