/**
Revocation: it is permanent over every history, it never widens rights, and which
handshakes it admits, since acceptance is not monotone in it.
 */
module Revocation {
  import opened Base
  import opened Keys
  import opened Canonical
  import opened TrustStore
  import opened TrustSnapshot
  import opened Certification
  import opened PeerVerification
  import opened PeerTheorems

  // ----- Revocation is permanent -----

  /** Nothing that counts was vouched for by a revoked authority or certifies a revoked node. */
  lemma RevokedNeverCounts(k: Crypto, t: Trust, hs: PeerHandshake, now: Int64, p: Pair)
    requires Extended(k, t, hs).Ok? && Counts(k, Extended(k, t, hs).value, now, p)
    ensures p.body.issuer !in t.revokedAdmins && p.body.issuer !in t.revokedUsers
    ensures k.nodeID(p.body.pub).Some? && k.nodeID(p.body.pub).value !in t.revokedNodes
    ensures var ext := Extended(k, t, hs).value;
            p.body.issuer in ext.userCAs ==> ext.userCAs[p.body.issuer].anchorAdmin !in t.revokedAdmins
  {
    if |hs.authorities| > 0 {
      EmbeddedAuthoritiesExtend(k, t, hs.authorities);
    }
  }

  /** The certificate rests on the authority or node that the operation revokes. */
  ghost predicate RestsOn(k: Crypto, t: Trust, list: seq<EmbeddedCA>, op: Op, p: Pair) {
    match op
    case OpRevokeAdmin(h) =>
      var user := UserOf(k, t, list, p.body.issuer);
      p.body.issuer == h || (user.Some? && user.value.anchorAdmin == h)
    case OpRevokeUser(h) => p.body.issuer == h
    case OpRevokeNode(n) => k.nodeID(p.body.pub) == Some(n)
    case _ => false
  }

  predicate IsRevoke(op: Op) {
    op.OpRevokeAdmin? || op.OpRevokeUser? || op.OpRevokeNode?
  }

  /** After a successful revocation, whatever happens next, no verification counts a certificate that rests on it. */
  lemma RevocationIsPermanent(k: Crypto, t: Trust, op: Op, later: seq<Op>, hs: PeerHandshake, now: Int64, p: Pair)
    requires IsRevoke(op) && Apply(k, t, op).error.None?
    ensures
      var u := Run(k, Apply(k, t, op).trust, later);
      Certified(k, u, hs.authorities, now, p) ==> !RestsOn(k, u, hs.authorities, op, p)
    ensures
      var u := Run(k, Apply(k, t, op).trust, later);
      Extended(k, u, hs).Ok? && Counts(k, Extended(k, u, hs).value, now, p) ==> !RestsOn(k, u, hs.authorities, op, p)
  {
    var u := Run(k, Apply(k, t, op).trust, later);
    RunGrows(k, Apply(k, t, op).trust, later);
    if Extended(k, u, hs).Ok? {
      ExtendedIsEmbedded(k, u, hs);
      CountsIff(k, u, hs.authorities, now, p);
    }
  }

  /** Removing a CA revokes it exactly when the revocation set had room. */
  lemma RemoveRevokesIff(k: Crypto, t: Trust, hash: Bytes)
    requires Consistent(k, t)
    ensures hash in t.adminCAs ==>
      (hash in RemoveAdmin(t, hash).trust.revokedAdmins <==> |t.revokedAdmins| < 100_000)
    ensures hash in t.userCAs ==>
      (hash in RemoveUser(t, hash).trust.revokedUsers <==> |t.revokedUsers| < 100_000)
  {
  }

  /** So a removed admin can be added again exactly when the revocation set was full. */
  lemma RemovedAdminReturnsIff(k: Crypto, t: Trust, pubKey: Bytes)
    requires Consistent(k, t) && NewAdminCA(k, pubKey).Some? && NewAdminCA(k, pubKey).value.hash in t.adminCAs
    ensures AddAdmin(k, RemoveAdmin(t, NewAdminCA(k, pubKey).value.hash).trust, pubKey).error.None?
       <==> |t.revokedAdmins| == 100_000
  {
    RemoveRevokesIff(k, t, NewAdminCA(k, pubKey).value.hash);
  }

  /** A name that is longer than any hash. */
  function LongName(n: nat): (name: Bytes)
    ensures |name| == 64 + n
  {
    Zeros(64 + n)
  }

  /** Revocations of n long names. */
  function ManyRevocations(n: nat): seq<Op> {
    if n == 0 then [] else ManyRevocations(n - 1) + [OpRevokeAdmin(LongName(n))]
  }

  /** The store with n revoked long names, and otherwise the same admins. */
  ghost predicate Filled(t: Trust, u: Trust, n: nat) {
    && u.adminCAs == t.adminCAs
    && |u.revokedAdmins| == n && forall x :: x in u.revokedAdmins ==> 64 < |x| <= 64 + n
  }

  ghost predicate ShortNames(t: Trust) {
    forall h :: h in t.adminCAs ==> |h| <= 64
  }

  lemma FillNext(k: Crypto, t: Trust, u: Trust, n: nat)
    requires 0 < n <= 100_000 && ShortNames(t) && Filled(t, u, n - 1)
    ensures Filled(t, Apply(k, u, OpRevokeAdmin(LongName(n))).trust, n)
  {
    assert LongName(n) !in u.revokedAdmins && LongName(n) !in u.adminCAs;
  }

  lemma {:induction false} RevocationsFill(k: Crypto, t: Trust, n: nat)
    requires t.revokedAdmins == {} && n <= 100_000 && ShortNames(t)
    ensures Filled(t, Run(k, t, ManyRevocations(n)), n)
  {
    if n > 0 {
      var u := Run(k, t, ManyRevocations(n - 1));
      RevocationsFill(k, t, n - 1);
      FillNext(k, t, u, n);
      RunOne(k, u, OpRevokeAdmin(LongName(n)));
      RunAppend(k, t, ManyRevocations(n - 1), [OpRevokeAdmin(LongName(n))]);
    }
  }

  /**
  The full set can be reached with an admin still trusted; removing that admin then does not
  revoke it, and it can return.
   */
  lemma FullSetIsReachable(k: Crypto, admin: PublicKey) returns (ops: seq<Op>)
    requires Reparses(k, admin)
    ensures var t, h := Run(k, EMPTY_TRUST, ops), CAHash(k, admin);
            && |t.revokedAdmins| == 100_000 && h in t.adminCAs
            && h !in RemoveAdmin(t, h).trust.revokedAdmins
            && AddAdmin(k, RemoveAdmin(t, h).trust, MarshalPubKey(admin)).error.None?
  {
    var n: nat :| n == 100_000;
    var first := [OpAddAdmin(MarshalPubKey(admin))];
    FirstAdmin(k, admin);
    RevocationsFill(k, Run(k, EMPTY_TRUST, first), n);
    ops := first + ManyRevocations(n);
    RunAppend(k, EMPTY_TRUST, first, ManyRevocations(n));
    RunKeepsConsistent(k, EMPTY_TRUST, ops);
    SplitMarshalRoundTrip(k, admin);
    RemoveRevokesIff(k, Run(k, EMPTY_TRUST, ops), CAHash(k, admin));
    RemovedAdminReturnsIff(k, Run(k, EMPTY_TRUST, ops), MarshalPubKey(admin));
  }

  // ----- Revocation never widens rights -----

  /** u is t after revocations: nothing new is trusted, and whatever was dropped is revoked. */
  ghost predicate Narrowed(t: Trust, u: Trust) {
    && RevocationGrows(t, u)
    && (forall h :: h in u.adminCAs ==> h in t.adminCAs && u.adminCAs[h] == t.adminCAs[h])
    && (forall h :: h in u.userCAs ==> h in t.userCAs && u.userCAs[h] == t.userCAs[h])
    && (forall h :: h in t.adminCAs && h !in u.adminCAs ==> h in u.revokedAdmins)
    && (forall h :: h in t.userCAs && h !in u.userCAs ==> h in u.revokedUsers)
  }

  /** Every operation of the sequence is a revocation that succeeds. */
  ghost predicate AllRevoke(k: Crypto, t: Trust, ops: seq<Op>)
    decreases |ops|
  {
    ops == [] ||
      (IsRevoke(ops[0]) && Apply(k, t, ops[0]).error.None? && AllRevoke(k, Apply(k, t, ops[0]).trust, ops[1..]))
  }

  lemma RevokeNarrows(k: Crypto, t: Trust, u: Trust, op: Op)
    requires Narrowed(t, u) && IsRevoke(op) && Apply(k, u, op).error.None?
    ensures Narrowed(t, Apply(k, u, op).trust)
  {
  }

  lemma {:induction false} RevocationsNarrow(k: Crypto, t: Trust, u: Trust, ops: seq<Op>)
    requires Narrowed(t, u) && AllRevoke(k, u, ops)
    ensures Narrowed(t, Run(k, u, ops))
    decreases |ops|
  {
    if ops != [] {
      RevokeNarrows(k, t, u, ops[0]);
      RevocationsNarrow(k, t, Apply(k, u, ops[0]).trust, ops[1..]);
    }
  }

  /** One supplied user CA, accepted on both sides, keeps the narrowed snapshot narrowed. */
  lemma EmbeddedUserNarrows(k: Crypto, t: Trust, u: Trust, a: EmbeddedCA)
    requires Narrowed(t, u)
    requires AddEmbeddedUser(k, t, a).Ok? && AddEmbeddedUser(k, u, a).Ok?
    ensures Narrowed(AddEmbeddedUser(k, t, a).value, AddEmbeddedUser(k, u, a).value)
  {
    var bytes := EmbeddedPubKeyBytes(k, a).value;
    var user := NewUserCA(k, bytes, a.anchorSig, a.anchorAdmin).value;
    assert user.hash !in u.revokedUsers;
    assert user.hash in t.userCAs ==> user.hash in u.userCAs;
  }

  lemma {:induction false} EmbeddedUsersNarrow(k: Crypto, t: Trust, u: Trust, authorities: seq<EmbeddedCA>)
    requires Narrowed(t, u)
    requires AddEmbeddedUsers(k, t, authorities).Ok? && AddEmbeddedUsers(k, u, authorities).Ok?
    ensures Narrowed(AddEmbeddedUsers(k, t, authorities).value, AddEmbeddedUsers(k, u, authorities).value)
    decreases |authorities|
  {
    if authorities != [] {
      if authorities[0].kind == USER_CA {
        EmbeddedUserNarrows(k, t, u, authorities[0]);
        EmbeddedUsersNarrow(k, AddEmbeddedUser(k, t, authorities[0]).value,
                            AddEmbeddedUser(k, u, authorities[0]).value, authorities[1..]);
      } else {
        EmbeddedUsersNarrow(k, t, u, authorities[1..]);
      }
    }
  }

  /** What counts in a narrowed snapshot counted before, under an issuer of the same kind. */
  lemma NarrowedCounts(k: Crypto, t: Trust, u: Trust, now: Int64, p: Pair)
    requires Narrowed(t, u) && Counts(k, u, now, p)
    ensures Counts(k, t, now, p) && (AdminIssued(t, p) <==> AdminIssued(u, p))
  {
  }

  /** A handshake accepted before and after any successful revocations gains no access by them. */
  lemma RevocationNeverWidens(k: Crypto, t: Trust, ops: seq<Op>, hs: PeerHandshake, now: Int64, owner: Bytes)
    requires AllRevoke(k, t, ops)
    requires Verify(k, t, hs, now).Ok? && Verify(k, Run(k, t, ops), hs, now).Ok?
    ensures Verify(k, t, hs, now).value.nodeID == Verify(k, Run(k, t, ops), hs, now).value.nodeID
    ensures CanAccess(Verify(k, Run(k, t, ops), hs, now).value, owner) ==> CanAccess(Verify(k, t, hs, now).value, owner)
  {
    var u := Run(k, t, ops);
    RevocationsNarrow(k, t, t, ops);
    VerifyUsesChain(k, t, hs, now);
    VerifyUsesChain(k, u, hs, now);
    if |hs.authorities| > 0 {
      EmbeddedUsersNarrow(k, t, u, hs.authorities);
    }
    NarrowedRights(k, Extended(k, t, hs).value, Extended(k, u, hs).value, now, Pairs(hs), owner);
  }

  lemma NarrowedRights(k: Crypto, t: Trust, u: Trust, now: Int64, ps: seq<Pair>, owner: Bytes)
    requires Narrowed(t, u) && Chain(k, t, now, ps).Ok? && Chain(k, u, now, ps).Ok?
    ensures
      var before, after := Chain(k, t, now, ps).value, Chain(k, u, now, ps).value;
      before.nodeID == after.nodeID && (CanAccess(DeriveScope(after), owner) ==> CanAccess(DeriveScope(before), owner))
  {
    ChainIff(k, t, now, ps);
    ChainIff(k, u, now, ps);
    forall p | p in ps && Counts(k, u, now, p)
      ensures Counts(k, t, now, p) && (AdminIssued(t, p) <==> AdminIssued(u, p))
    {
      NarrowedCounts(k, t, u, now, p);
    }
  }

  // ----- Revocation can turn a rejection into an acceptance -----

  /** The pairs that are certified and do not rest on what the operation revokes. */
  ghost function Survivors(k: Crypto, t: Trust, op: Op, hs: PeerHandshake, now: Int64): set<Pair>
    requires |hs.certs| == |hs.caSigs|
  {
    set p | p in CertifiedPairs(k, t, hs, now) && !RestsOn(k, t, hs.authorities, op, p)
  }

  lemma AdminDecertifiesIff(k: Crypto, t: Trust, h: Bytes, list: seq<EmbeddedCA>, now: Int64, p: Pair)
    requires RevokeAdmin(t, h).error.None?
    ensures Certified(k, RevokeAdmin(t, h).trust, list, now, p) <==>
      Certified(k, t, list, now, p) && !RestsOn(k, t, list, OpRevokeAdmin(h), p)
  {
    assert UserOf(k, RevokeAdmin(t, h).trust, list, p.body.issuer) == UserOf(k, t, list, p.body.issuer);
  }

  lemma UserDecertifiesIff(k: Crypto, t: Trust, h: Bytes, list: seq<EmbeddedCA>, now: Int64, p: Pair)
    requires RevokeUser(t, h).error.None?
    ensures Certified(k, RevokeUser(t, h).trust, list, now, p) <==> Certified(k, t, list, now, p) && p.body.issuer != h
  {
    if p.body.issuer != h {
      assert UserOf(k, RevokeUser(t, h).trust, list, p.body.issuer) == UserOf(k, t, list, p.body.issuer);
    }
  }

  lemma NodeDecertifiesIff(k: Crypto, t: Trust, n: NodeID, list: seq<EmbeddedCA>, now: Int64, p: Pair)
    requires RevokeNode(t, n).error.None?
    ensures Certified(k, RevokeNode(t, n).trust, list, now, p) <==>
      Certified(k, t, list, now, p) && k.nodeID(p.body.pub) != Some(n)
  {
    assert UserOf(k, RevokeNode(t, n).trust, list, p.body.issuer) == UserOf(k, t, list, p.body.issuer);
  }

  /** A successful revocation decertifies exactly what rests on it. */
  lemma CertifiedAfterIff(k: Crypto, t: Trust, op: Op, list: seq<EmbeddedCA>, now: Int64, p: Pair)
    requires IsRevoke(op) && Apply(k, t, op).error.None?
    ensures Certified(k, Apply(k, t, op).trust, list, now, p) <==>
      Certified(k, t, list, now, p) && !RestsOn(k, t, list, op, p)
  {
    match op
    case OpRevokeAdmin(h) => AdminDecertifiesIff(k, t, h, list, now, p);
    case OpRevokeUser(h) => UserDecertifiesIff(k, t, h, list, now, p);
    case OpRevokeNode(n) => NodeDecertifiesIff(k, t, n, list, now, p);
  }

  lemma CountsAfterIff(k: Crypto, t: Trust, op: Op, now: Int64, p: Pair)
    requires IsRevoke(op) && Apply(k, t, op).error.None?
    ensures Counts(k, Apply(k, t, op).trust, now, p) <==> Counts(k, t, now, p) && !RestsOn(k, t, [], op, p)
  {
    CountsIff(k, t, [], now, p);
    CountsIff(k, Apply(k, t, op).trust, [], now, p);
    CertifiedAfterIff(k, t, op, [], now, p);
  }

  /** After any successful revocation the chain holds exactly when what still counts is there and certifies one node. */
  lemma RevokedChainIff(k: Crypto, t: Trust, op: Op, now: Int64, ps: seq<Pair>)
    requires IsRevoke(op) && Apply(k, t, op).error.None?
    ensures var left := set p | p in ps && Counts(k, t, now, p) && !RestsOn(k, t, [], op, p);
            Chain(k, Apply(k, t, op).trust, now, ps).Ok? <==> OfOneNode(k, left)
  {
    var u := Apply(k, t, op).trust;
    var left := set p | p in ps && Counts(k, t, now, p) && !RestsOn(k, t, [], op, p);
    forall p | p in ps
      ensures p in left <==> p in CountedSet(k, u, now, ps)
    {
      CountsAfterIff(k, t, op, now, p);
    }
    assert left == CountedSet(k, u, now, ps);
    OneNodeIff(k, u, now, ps);
  }

  /** The supplied authorities are acceptable without what the operation revokes. */
  ghost predicate AuthoritiesSpared(k: Crypto, t: Trust, op: Op, list: seq<EmbeddedCA>) {
    && AuthoritiesGood(k, t, list)
    && match op
       case OpRevokeUser(h) => forall a :: a in list ==> !Supplies(k, a, h)
       case OpRevokeAdmin(h) =>
         && (forall a | a in list && a.kind == ADMIN_CA :: CAHash(k, SuppliedKey(k, a).value) != h)
         && (forall i | 0 <= i < |list| && list[i].kind == USER_CA ::
               BackedWithout(k, t, list[..i + 1], CAHash(k, SuppliedKey(k, list[i]).value), h))
       case _ => true
  }

  /** Backed even if one admin is lost. */
  ghost predicate BackedWithout(k: Crypto, t: Trust, list: seq<EmbeddedCA>, h: Bytes, lost: Bytes) {
    h in t.userCAs || exists a :: a in list && Supplies(k, a, h) && AnchorGood(k, t, a) && a.anchorAdmin != lost
  }

  lemma BackedAfterIff(k: Crypto, t: Trust, lost: Bytes, list: seq<EmbeddedCA>, h: Bytes)
    requires RevokeAdmin(t, lost).error.None?
    ensures Backed(k, RevokeAdmin(t, lost).trust, list, h) <==> BackedWithout(k, t, list, h, lost)
  {
    var u := RevokeAdmin(t, lost).trust;
    assert forall a :: AnchorGood(k, u, a) <==> AnchorGood(k, t, a) && a.anchorAdmin != lost;
  }

  lemma AdminRevokedIff(k: Crypto, t: Trust, lost: Bytes, list: seq<EmbeddedCA>)
    requires RevokeAdmin(t, lost).error.None?
    ensures AuthoritiesGood(k, RevokeAdmin(t, lost).trust, list) <==> AuthoritiesSpared(k, t, OpRevokeAdmin(lost), list)
  {
    var u := RevokeAdmin(t, lost).trust;
    assert forall a :: AdminGood(k, u, a) <==> AdminGood(k, t, a) && CAHash(k, SuppliedKey(k, a).value) != lost;
    forall i | 0 <= i < |list| && list[i].kind == USER_CA
      ensures UserGood(k, u, list, i) <==>
        UserGood(k, t, list, i) && BackedWithout(k, t, list[..i + 1], CAHash(k, SuppliedKey(k, list[i]).value), lost)
    {
      if SuppliedKey(k, list[i]).Some? {
        BackedAfterIff(k, t, lost, list[..i + 1], CAHash(k, SuppliedKey(k, list[i]).value));
      }
    }
  }

  lemma UserRevokedIff(k: Crypto, t: Trust, lost: Bytes, list: seq<EmbeddedCA>)
    requires RevokeUser(t, lost).error.None?
    ensures AuthoritiesGood(k, RevokeUser(t, lost).trust, list) <==> AuthoritiesSpared(k, t, OpRevokeUser(lost), list)
  {
    var u := RevokeUser(t, lost).trust;
    assert forall a :: (AnchorGood(k, u, a) <==> AnchorGood(k, t, a)) && (AdminGood(k, u, a) <==> AdminGood(k, t, a));
    forall i | 0 <= i < |list| && list[i].kind == USER_CA
      ensures UserGood(k, u, list, i) <==> UserGood(k, t, list, i) && !Supplies(k, list[i], lost)
    {
      if SuppliedKey(k, list[i]).Some? {
        var h := CAHash(k, SuppliedKey(k, list[i]).value);
        assert h != lost ==> (Backed(k, u, list[..i + 1], h) <==> Backed(k, t, list[..i + 1], h));
      }
    }
  }

  lemma AuthoritiesAfterIff(k: Crypto, t: Trust, op: Op, list: seq<EmbeddedCA>)
    requires IsRevoke(op) && Apply(k, t, op).error.None?
    ensures AuthoritiesGood(k, Apply(k, t, op).trust, list) <==> AuthoritiesSpared(k, t, op, list)
  {
    match op
    case OpRevokeAdmin(h) => AdminRevokedIff(k, t, h, list);
    case OpRevokeUser(h) => UserRevokedIff(k, t, h, list);
    case OpRevokeNode(n) => NodeRevokedIff(k, t, n, list);
  }

  lemma NodeRevokedIff(k: Crypto, t: Trust, lost: NodeID, list: seq<EmbeddedCA>)
    ensures AuthoritiesGood(k, RevokeNode(t, lost).trust, list) <==> AuthoritiesGood(k, t, list)
  {
    var u := RevokeNode(t, lost).trust;
    assert forall a :: (AnchorGood(k, u, a) <==> AnchorGood(k, t, a)) && (AdminGood(k, u, a) <==> AdminGood(k, t, a));
    forall i | 0 <= i < |list|
      ensures UserGood(k, u, list, i) <==> UserGood(k, t, list, i)
    {
      if SuppliedKey(k, list[i]).Some? {
        var h := CAHash(k, SuppliedKey(k, list[i]).value);
        assert Backed(k, u, list[..i + 1], h) <==> Backed(k, t, list[..i + 1], h);
      }
    }
  }

  lemma SurvivorsIff(k: Crypto, t: Trust, op: Op, hs: PeerHandshake, now: Int64)
    requires IsRevoke(op) && Apply(k, t, op).error.None? && |hs.certs| == |hs.caSigs|
    ensures CertifiedPairs(k, Apply(k, t, op).trust, hs, now) == Survivors(k, t, op, hs, now)
  {
    var u := Apply(k, t, op).trust;
    forall p | p in Pairs(hs)
      ensures p in CertifiedPairs(k, u, hs, now) <==> p in Survivors(k, t, op, hs, now)
    {
      CertifiedAfterIff(k, t, op, hs.authorities, now, p);
    }
  }

  /**
  Acceptance after any successful revocation, from the store before it: the authorities
  must do without what is revoked, and the surviving certificates must be accepted on.
   */
  lemma RevokedVerifyIff(k: Crypto, t: Trust, op: Op, hs: PeerHandshake, now: Int64)
    requires IsRevoke(op) && Apply(k, t, op).error.None?
    ensures Verify(k, Apply(k, t, op).trust, hs, now).Ok? <==>
      && WellShaped(hs) && CertsConsistent(k, hs.certs)
      && AuthoritiesSpared(k, t, op, hs.authorities)
      && AcceptsOn(k, hs, now, Survivors(k, t, op, hs, now))
  {
    VerifyIff(k, Apply(k, t, op).trust, hs, now);
    AuthoritiesAfterIff(k, t, op, hs.authorities);
    if |hs.certs| == |hs.caSigs| {
      SurvivorsIff(k, t, op, hs, now);
    }
  }

  /**
  A revocation admits a handshake exactly when the surviving certificates are accepted on and
  all the certified ones were not.
   */
  lemma RevocationAdmitsIff(k: Crypto, t: Trust, op: Op, hs: PeerHandshake, now: Int64)
    requires IsRevoke(op) && Apply(k, t, op).error.None?
    ensures Verify(k, t, hs, now).Err? && Verify(k, Apply(k, t, op).trust, hs, now).Ok? <==>
      && WellShaped(hs) && CertsConsistent(k, hs.certs)
      && AuthoritiesSpared(k, t, op, hs.authorities)
      && AcceptsOn(k, hs, now, Survivors(k, t, op, hs, now))
      && !AcceptsOn(k, hs, now, CertifiedPairs(k, t, hs, now))
  {
    VerifyIff(k, t, hs, now);
    RevokedVerifyIff(k, t, op, hs, now);
  }

  lemma MismatchRejected(k: Crypto, t: Trust, now: Int64, ps: seq<Pair>, p: Pair, q: Pair)
    requires p in ps && q in ps && Counts(k, t, now, p) && Counts(k, t, now, q)
      && k.nodeID(p.body.pub) != k.nodeID(q.body.pub)
    ensures Chain(k, t, now, ps) == Err(ErrMismatchedNodeID)
  {
    var cs := CountedOf(k, t, now, ps);
    assert p in cs && q in cs;
    var i :| 0 <= i < |cs| && cs[i] == p;
    var j :| 0 <= j < |cs| && cs[j] == q;
    assert !SameNode(k, cs);
  }

  /** Certificates of two nodes in one handshake are rejected as a mismatch. */
  lemma TwoNodesRejected(k: Crypto, t: Trust, hs: PeerHandshake, now: Int64, p: Pair, q: Pair)
    requires WellShaped(hs) && CertsConsistent(k, hs.certs) && AuthoritiesGood(k, t, hs.authorities)
    requires p in CertifiedPairs(k, t, hs, now) && q in CertifiedPairs(k, t, hs, now)
      && k.nodeID(p.body.pub) != k.nodeID(q.body.pub)
    ensures Verify(k, t, hs, now) == Err(ErrMismatchedNodeID)
  {
    SnapshotErrorIff(k, hs.certs);
    AuthoritiesIff(k, t, hs.authorities);
    ExtendedIsEmbedded(k, t, hs);
    CertifiedAreCounted(k, t, hs, now);
    MismatchRejected(k, Extended(k, t, hs).value, now, Pairs(hs), p, q);
  }

  /** A non-empty set of pairs of the sequence has a first one. */
  lemma {:induction false} FirstExists(ps: seq<Pair>, good: set<Pair>) returns (first: Pair)
    requires exists p :: p in ps && p in good
    ensures FirstOf(ps, good, first)
    decreases |ps|
  {
    if ps[0] in good {
      first := ps[0];
    } else {
      var p :| p in ps && p in good;
      assert p in ps[1..];
      first := FirstExists(ps[1..], good);
      var i :| 0 <= i < |ps[1..]| && ps[1..][i] == first && forall j :: 0 <= j < i ==> ps[1..][j] !in good;
      assert ps[i + 1] == first;
      assert forall j :: 0 < j < i + 1 ==> ps[j] == ps[1..][j - 1];
    }
  }

  lemma FirstUnique(ps: seq<Pair>, good: set<Pair>, p: Pair, q: Pair)
    requires FirstOf(ps, good, p) && FirstOf(ps, good, q)
    ensures p == q && p in ps && p in good
  {
    var i :| 0 <= i < |ps| && ps[i] == p && forall j :: 0 <= j < i ==> ps[j] !in good;
    var j :| 0 <= j < |ps| && ps[j] == q && forall i :: 0 <= i < j ==> ps[i] !in good;
    assert !(i < j) && !(j < i);
  }

  lemma FirstMember(ps: seq<Pair>, good: set<Pair>) returns (first: Pair)
    requires good != {} && forall p :: p in good ==> p in ps
    ensures FirstOf(ps, good, first) && first in ps && first in good
  {
    var p :| p in good;
    assert p in ps;
    first := FirstExists(ps, good);
    FirstUnique(ps, good, first, first);
  }

  lemma AcceptedFirst(k: Crypto, hs: PeerHandshake, now: Int64, good: set<Pair>, p: Pair)
    requires |hs.certs| == |hs.caSigs| && hs.proof.Some? && AcceptsOn(k, hs, now, good) && FirstOf(Pairs(hs), good, p)
    ensures k.verify(p.body.pub, DelegationMessage(hs.proof.value), hs.delegationSig)
  {
    var q :| FirstOf(Pairs(hs), good, q) && k.verify(q.body.pub, DelegationMessage(hs.proof.value), hs.delegationSig);
    FirstUnique(Pairs(hs), good, p, q);
  }

  /** The first pairs of two sets that are accepted and not accepted on have different keys. */
  lemma DifferentKeys(k: Crypto, hs: PeerHandshake, now: Int64, good: set<Pair>, fewer: set<Pair>, p: Pair, q: Pair)
    requires |hs.certs| == |hs.caSigs| && hs.proof.Some? && OfOneNode(k, good)
    requires AcceptsOn(k, hs, now, fewer) && !AcceptsOn(k, hs, now, good)
    requires FirstOf(Pairs(hs), good, p) && FirstOf(Pairs(hs), fewer, q)
    ensures p.body.pub != q.body.pub
  {
    AcceptedFirst(k, hs, now, fewer, q);
  }

  lemma PairsCollide(k: Crypto, hs: PeerHandshake, p: Pair, q: Pair)
    requires |hs.certs| == |hs.caSigs| && p in Pairs(hs) && q in Pairs(hs) && p.body.pub != q.body.pub
    requires k.nodeID(p.body.pub).Some? && k.nodeID(p.body.pub) == k.nodeID(q.body.pub)
    ensures BundleCollision(k, Bodies(hs))
  {
    PairsHoldBodies(hs, p);
    PairsHoldBodies(hs, q);
    assert NodeIDCollision(k, p.body.pub, q.body.pub);
  }

  lemma SurvivorsCertified(k: Crypto, t: Trust, op: Op, hs: PeerHandshake, now: Int64)
    requires |hs.certs| == |hs.caSigs|
    ensures Survivors(k, t, op, hs, now) <= CertifiedPairs(k, t, hs, now)
    ensures forall p :: p in CertifiedPairs(k, t, hs, now) ==> p in Pairs(hs) && k.nodeID(p.body.pub).Some?
  {
  }

  lemma TwoNodes(k: Crypto, good: set<Pair>, fewer: set<Pair>) returns (p: Pair, q: Pair)
    requires fewer <= good && fewer != {} && !OfOneNode(k, good)
    ensures p in good && q in good && k.nodeID(p.body.pub) != k.nodeID(q.body.pub)
  {
    p, q :| p in good && q in good && k.nodeID(p.body.pub) != k.nodeID(q.body.pub);
  }

  /** What a revocation lets in was rejected for certifying two nodes, or two keys of the handshake collide. */
  lemma OnlyMismatchesAreAdmitted(k: Crypto, t: Trust, op: Op, hs: PeerHandshake, now: Int64)
    requires IsRevoke(op) && Apply(k, t, op).error.None?
    ensures Verify(k, t, hs, now).Err? && Verify(k, Apply(k, t, op).trust, hs, now).Ok? ==>
      Verify(k, t, hs, now) == Err(ErrMismatchedNodeID) || BundleCollision(k, Bodies(hs))
  {
    if Verify(k, t, hs, now).Err? && Verify(k, Apply(k, t, op).trust, hs, now).Ok? {
      RevocationAdmitsIff(k, t, op, hs, now);
      var good, fewer := CertifiedPairs(k, t, hs, now), Survivors(k, t, op, hs, now);
      SurvivorsCertified(k, t, op, hs, now);
      if OfOneNode(k, good) {
        var p := FirstMember(Pairs(hs), good);
        var q := FirstMember(Pairs(hs), fewer);
        DifferentKeys(k, hs, now, good, fewer, p, q);
        PairsCollide(k, hs, p, q);
      } else {
        var p, q := TwoNodes(k, good, fewer);
        TwoNodesRejected(k, t, hs, now, p, q);
      }
    }
  }

  /**
  Of two certified nodes in one handshake, a revocation leaves one, and the first certificate
  left delegated to the session.
   */
  ghost predicate Admissible(k: Crypto, t: Trust, op: Op, hs: PeerHandshake, now: Int64, p: Pair, q: Pair) {
    && IsRevoke(op) && Apply(k, t, op).error.None?
    && WellShaped(hs) && CertsConsistent(k, hs.certs) && AuthoritiesSpared(k, t, op, hs.authorities)
    && p in Survivors(k, t, op, hs, now) && q in CertifiedPairs(k, t, hs, now)
      && k.nodeID(p.body.pub) != k.nodeID(q.body.pub)
    && AcceptsOn(k, hs, now, Survivors(k, t, op, hs, now))
  }

  /** Such a handshake is rejected before the revocation, and lets the surviving node in after it. */
  lemma RevocationCanAdmit(k: Crypto, t: Trust, op: Op, hs: PeerHandshake, now: Int64, p: Pair, q: Pair)
    ensures Admissible(k, t, op, hs, now, p, q) ==>
      && Verify(k, t, hs, now) == Err(ErrMismatchedNodeID)
      && var after := Verify(k, Apply(k, t, op).trust, hs, now);
         after.Ok? && Some(after.value.nodeID) == k.nodeID(p.body.pub)
  {
    if Admissible(k, t, op, hs, now, p, q) {
      TwoNodesRejected(k, t, hs, now, p, q);
      RevokedVerifyIff(k, t, op, hs, now);
      SurvivorsIff(k, t, op, hs, now);
      AcceptedNode(k, Apply(k, t, op).trust, hs, now, p);
    }
  }

  // ----- Such a handshake, for every scheme in which one admin can sign -----

  lemma FirstAdmin(k: Crypto, pub: PublicKey)
    requires Reparses(k, pub)
    ensures Run(k, EMPTY_TRUST, [OpAddAdmin(MarshalPubKey(pub))])
         == EMPTY_TRUST.(adminCAs := map[CAHash(k, pub) := AdminCA(pub, CAHash(k, pub))])
  {
    SplitMarshalRoundTrip(k, pub);
    var op := OpAddAdmin(MarshalPubKey(pub));
    assert [op][1..] == [];
    assert Run(k, EMPTY_TRUST, [op]) == Apply(k, EMPTY_TRUST, op).trust;
  }

  /** The store that trusts one admin. */
  function OneAdmin(k: Crypto, admin: PublicKey): Trust {
    Run(k, EMPTY_TRUST, [OpAddAdmin(MarshalPubKey(admin))])
  }

  /** The holder of the key can sign every message. */
  ghost predicate Signs(k: Crypto, key: PublicKey, sign: Bytes -> Bytes) {
    forall m :: sign(m) != [] && k.verify(key, m, sign(m))
  }

  function JointBody(k: Crypto, admin: PublicKey, pub: PublicKey, now: Int64): CertBody {
    CertBody(1, pub, CAHash(k, admin), now, now, [], [])
  }

  /** A certificate for the key, signed by the admin. */
  function JointPair(k: Crypto, sign: Bytes -> Bytes, admin: PublicKey, pub: PublicKey, now: Int64): Pair {
    var c := JointBody(k, admin, pub, now);
    Pair(c, sign(DomainSeparate(CTX_NODE_ADMISSION, CertBytes(c))))
  }

  function JointProof(k: Crypto, admin: PublicKey, other: PublicKey, now: Int64): DelegationProof {
    var (z, bodies) := (Zeros(32), [JointBody(k, admin, admin, now), JointBody(k, admin, other, now)]);
    DelegationProof(z, z, z, z, k.sha256(BundleBytes(bodies)), now, now)
  }

  /** The admin's own node presents its certificate together with that of another node, and delegates. */
  function Joint(k: Crypto, sign: Bytes -> Bytes, admin: PublicKey, other: PublicKey, now: Int64): PeerHandshake
    requires k.nodeID(admin).Some? && k.nodeID(other).Some?
  {
    var (p, q) := (JointPair(k, sign, admin, admin, now), JointPair(k, sign, admin, other, now));
    var (z, proof) := (Zeros(32), JointProof(k, admin, other, now));
    PeerHandshake(
      [Some(NodeCert(p.body, k.nodeID(admin).value)), Some(NodeCert(q.body, k.nodeID(other).value))],
      [p.sig, q.sig], [], Some(proof), sign(DelegationMessage(proof)), TLSBindings(z, z, z, z))
  }

  lemma JointCertified(k: Crypto, sign: Bytes -> Bytes, admin: PublicKey, pub: PublicKey, now: Int64)
    requires Reparses(k, admin) && k.nodeID(pub).Some? && Signs(k, admin, sign)
    ensures Certified(k, OneAdmin(k, admin), [], now, JointPair(k, sign, admin, pub, now))
  {
    FirstAdmin(k, admin);
    AsciiIsUtf8(CAHash(k, admin));
  }

  lemma JointShape(k: Crypto, sign: Bytes -> Bytes, admin: PublicKey, other: PublicKey, now: Int64)
    requires k.nodeID(admin).Some? && k.nodeID(other).Some? && Signs(k, admin, sign)
    ensures var hs := Joint(k, sign, admin, other, now);
            && WellShaped(hs) && CertsConsistent(k, hs.certs)
            && Bodies(hs) == [JointBody(k, admin, admin, now), JointBody(k, admin, other, now)]
            && Pairs(hs) == [JointPair(k, sign, admin, admin, now), JointPair(k, sign, admin, other, now)]
  {
  }

  lemma JointProofGood(k: Crypto, sign: Bytes -> Bytes, admin: PublicKey, other: PublicKey, now: Int64)
    requires k.nodeID(admin).Some? && k.nodeID(other).Some? && Signs(k, admin, sign)
    ensures ProofGood(k, Joint(k, sign, admin, other, now), now)
  {
    JointShape(k, sign, admin, other, now);
    AsciiIsUtf8(CAHash(k, admin));
  }

  lemma JointAcceptsOn(k: Crypto, hs: PeerHandshake, now: Int64, p: Pair)
    requires |hs.certs| == |hs.caSigs| && hs.proof.Some? && ProofGood(k, hs, now)
    requires Pairs(hs) != [] && Pairs(hs)[0] == p
    requires k.verify(p.body.pub, DelegationMessage(hs.proof.value), hs.delegationSig)
    ensures AcceptsOn(k, hs, now, {p})
  {
    assert FirstOf(Pairs(hs), {p}, p);
  }

  lemma NoAuthoritiesSpared(k: Crypto, t: Trust, op: Op)
    ensures AuthoritiesSpared(k, t, op, [])
  {
  }

  /** Of two certified pairs, a revocation on which only the second rests leaves the first. */
  lemma FirstSurvives(k: Crypto, t: Trust, op: Op, hs: PeerHandshake, now: Int64, p: Pair, q: Pair)
    requires |hs.certs| == |hs.caSigs| && hs.authorities == [] && Pairs(hs) == [p, q]
    requires Certified(k, t, [], now, p) && Certified(k, t, [], now, q)
    requires RestsOn(k, t, [], op, q) && !RestsOn(k, t, [], op, p)
    ensures q in CertifiedPairs(k, t, hs, now) && Survivors(k, t, op, hs, now) == {p}
  {
    assert Pairs(hs)[0] == p && Pairs(hs)[1] == q;
    assert forall x :: x in Pairs(hs) <==> x == p || x == q;
    assert CertifiedPairs(k, t, hs, now) == {p, q};
  }

  lemma OneAdminRevokes(k: Crypto, admin: PublicKey, op: Op)
    requires Reparses(k, admin) && IsRevoke(op)
    ensures Apply(k, OneAdmin(k, admin), op).error.None?
  {
    FirstAdmin(k, admin);
  }

  lemma JointAdmissible(k: Crypto, sign: Bytes -> Bytes, admin: PublicKey, other: PublicKey, now: Int64)
    requires Reparses(k, admin) && Signs(k, admin, sign)
    requires k.nodeID(admin).Some? && k.nodeID(other).Some? && k.nodeID(admin) != k.nodeID(other)
    ensures Admissible(k, OneAdmin(k, admin), OpRevokeNode(k.nodeID(other).value), Joint(k, sign, admin, other, now),
                       now, JointPair(k, sign, admin, admin, now), JointPair(k, sign, admin, other, now))
  {
    var t, op, hs := OneAdmin(k, admin), OpRevokeNode(k.nodeID(other).value), Joint(k, sign, admin, other, now);
    var p, q := JointPair(k, sign, admin, admin, now), JointPair(k, sign, admin, other, now);
    OneAdminRevokes(k, admin, op);
    JointShape(k, sign, admin, other, now);
    JointProofGood(k, sign, admin, other, now);
    JointCertified(k, sign, admin, admin, now);
    JointCertified(k, sign, admin, other, now);
    FirstSurvives(k, t, op, hs, now, p, q);
    JointAcceptsOn(k, hs, now, p);
    NoAuthoritiesSpared(k, t, op);
  }

  /**
  So acceptance is not monotone, for any scheme in which some admin can sign and has a node
  identifier, and any second node: against the store that trusts this admin, a whole
  handshake is rejected before the second node is revoked and accepted after it.
   */
  lemma RevocationIsNotMonotone(k: Crypto, sign: Bytes -> Bytes, admin: PublicKey, other: PublicKey, now: Int64)
    requires Reparses(k, admin) && Signs(k, admin, sign)
    requires k.nodeID(admin).Some? && k.nodeID(other).Some? && k.nodeID(admin) != k.nodeID(other)
    ensures var t, op := OneAdmin(k, admin), OpRevokeNode(k.nodeID(other).value);
            && Apply(k, t, op).error.None?
            && Verify(k, t, Joint(k, sign, admin, other, now), now) == Err(ErrMismatchedNodeID)
            && Verify(k, Apply(k, t, op).trust, Joint(k, sign, admin, other, now), now).Ok?
  {
    JointAdmissible(k, sign, admin, other, now);
    RevocationCanAdmit(k, OneAdmin(k, admin), OpRevokeNode(k.nodeID(other).value), Joint(k, sign, admin, other, now),
                       now, JointPair(k, sign, admin, admin, now), JointPair(k, sign, admin, other, now));
  }

  /** Such schemes exist. */
  lemma SigningSchemeExists() returns (k: Crypto, sign: Bytes -> Bytes, admin: PublicKey, other: PublicKey)
    ensures Reparses(k, admin) && Signs(k, admin, sign)
    ensures k.nodeID(admin).Some? && k.nodeID(other).Some? && k.nodeID(admin) != k.nodeID(other)
  {
    var a: PublicKey := CompositeKey(Zeros(KEM_PUBLIC_KEY_SIZE), [0]);
    var n: NodeID := [1] + Zeros(31);
    assert ZERO_NODE_ID[0] != n[0];
    admin, other := a, CompositeKey(Zeros(KEM_PUBLIC_KEY_SIZE), [1]);
    sign := m => [1] + m;
    k := Crypto((pub, m, s) => pub == a && s == [1] + m, _ => ZERO_NODE_ID,
                pub => Some(if pub == a then ZERO_NODE_ID else n), (_, _) => true);
  }
}
