/**
What the operations of the trust store (internal/auth/carrier_auth.go) do, entry by entry:
when each succeeds, what it adds or takes away, what it leaves alone, and what becomes of
the certificates that rest on it.
 */
module StoreOperations {
  import opened Base
  import opened Keys
  import opened Canonical
  import opened TrustStore
  import opened TrustSnapshot
  import opened Certification

  /** One entry more, all others as before. */
  ghost predicate Gains<V>(m: map<Bytes, V>, m': map<Bytes, V>, h: Bytes, v: V) {
    && h !in m && m'.Keys == m.Keys + {h} && m'[h] == v
    && forall x :: x in m ==> m'[x] == m[x]
  }

  /** One entry less, all others as before. */
  ghost predicate Loses<V>(m: map<Bytes, V>, m': map<Bytes, V>, h: Bytes) {
    && h in m && m'.Keys == m.Keys - {h}
    && forall x :: x in m' ==> m'[x] == m[x]
  }

  // ----- Additions -----

  /** A serialised admin key is added unless it is known or revoked, and takes no other entry away. */
  lemma AddAdminIff(k: Crypto, t: Trust, pub: PublicKey)
    requires Reparses(k, pub)
    ensures var r, h := AddAdmin(k, t, MarshalPubKey(pub)), CAHash(k, pub);
            if h in t.adminCAs then r == Outcome(t, Some(ErrCAAlreadyExists))
            else if h in t.revokedAdmins then r == Outcome(t, Some(ErrCARevoked))
            else
              && r.error.None? && Gains(t.adminCAs, r.trust.adminCAs, h, AdminCA(pub, h))
              && r.trust.(adminCAs := t.adminCAs) == t
  {
    SplitMarshalRoundTrip(k, pub);
  }

  /**
  A serialised user CA is added unless it is known or revoked, or its anchor is missing,
  revoked or did not sign it.
   */
  lemma AddUserIff(k: Crypto, t: Trust, pub: PublicKey, sig: Bytes, anchor: Bytes)
    requires Reparses(k, pub)
    ensures var r, h := AddUser(k, t, MarshalPubKey(pub), sig, anchor), CAHash(k, pub);
            if h in t.userCAs then r == Outcome(t, Some(ErrCAAlreadyExists))
            else if h in t.revokedUsers then r == Outcome(t, Some(ErrCARevoked))
            else if anchor !in t.adminCAs then r == Outcome(t, Some(ErrAnchorAdminNotFound))
            else if anchor in t.revokedAdmins then r == Outcome(t, Some(ErrAnchorAdminRevoked))
            else if !k.verify(t.adminCAs[anchor].pub, DomainSeparate(CTX_USER_CA_ANCHOR, MarshalPubKey(pub)), sig)
            then r == Outcome(t, Some(ErrInvalidAnchorSig))
            else
              && r.error.None? && Gains(t.userCAs, r.trust.userCAs, h, UserCA(pub, h, sig, anchor))
              && r.trust.(userCAs := t.userCAs) == t
  {
    SplitMarshalRoundTrip(k, pub);
  }

  /** Bytes that serialise no key are refused by both additions. */
  lemma MalformedKeysAreRefused(k: Crypto, t: Trust, bytes: Bytes, sig: Bytes, anchor: Bytes)
    requires forall pub: PublicKey :: Reparses(k, pub) ==> MarshalPubKey(pub) != bytes
    ensures AddAdmin(k, t, bytes) == AddUser(k, t, bytes, sig, anchor) == Outcome(t, Some(ErrInvalidKey))
  {
    ParsedIsSerialised(k, bytes);
  }

  // ----- Removals and revocations -----

  /** Exactly the named admin goes; it is revoked while the set holds fewer than 100000 entries. */
  lemma RemoveAdminEffect(t: Trust, h: Bytes)
    ensures var r := RemoveAdmin(t, h);
            if h !in t.adminCAs then r == Outcome(t, Some(ErrCANotFound))
            else
              && r.error.None? && Loses(t.adminCAs, r.trust.adminCAs, h)
              && r.trust.revokedAdmins == t.revokedAdmins + (if |t.revokedAdmins| < 100_000 then {h} else {})
              && r.trust.(adminCAs := t.adminCAs, revokedAdmins := t.revokedAdmins) == t
  {
  }

  /** Exactly the named user CA goes; it is revoked while the set holds fewer than 100000 entries. */
  lemma RemoveUserEffect(t: Trust, h: Bytes)
    ensures var r := RemoveUser(t, h);
            if h !in t.userCAs then r == Outcome(t, Some(ErrCANotFound))
            else
              && r.error.None? && Loses(t.userCAs, r.trust.userCAs, h)
              && r.trust.revokedUsers == t.revokedUsers + (if |t.revokedUsers| < 100_000 then {h} else {})
              && r.trust.(userCAs := t.userCAs, revokedUsers := t.revokedUsers) == t
  {
  }

  /** A full set refuses; otherwise exactly this admin is revoked, and no longer trusted. */
  lemma RevokeAdminEffect(t: Trust, h: Bytes)
    ensures var r := RevokeAdmin(t, h);
            if |t.revokedAdmins| >= 100_000 then r == Outcome(t, Some(ErrRevocationStoreFull))
            else
              && r.error.None? && r.trust.revokedAdmins == t.revokedAdmins + {h}
              && (if h in t.adminCAs then Loses(t.adminCAs, r.trust.adminCAs, h) else r.trust.adminCAs == t.adminCAs)
              && r.trust.(adminCAs := t.adminCAs, revokedAdmins := t.revokedAdmins) == t
  {
  }

  /** A full set refuses; otherwise exactly this user CA is revoked, and no longer trusted. */
  lemma RevokeUserEffect(t: Trust, h: Bytes)
    ensures var r := RevokeUser(t, h);
            if |t.revokedUsers| >= 100_000 then r == Outcome(t, Some(ErrRevocationStoreFull))
            else
              && r.error.None? && r.trust.revokedUsers == t.revokedUsers + {h}
              && (if h in t.userCAs then Loses(t.userCAs, r.trust.userCAs, h) else r.trust.userCAs == t.userCAs)
              && r.trust.(userCAs := t.userCAs, revokedUsers := t.revokedUsers) == t
  {
  }

  /** A full set refuses; otherwise exactly this node is revoked. */
  lemma RevokeNodeEffect(t: Trust, node: NodeID)
    ensures var r := RevokeNode(t, node);
            if |t.revokedNodes| >= 100_000 then r == Outcome(t, Some(ErrRevocationStoreFull))
            else
              && r.error.None? && r.trust.(revokedNodes := t.revokedNodes) == t
              && (forall n :: n in r.trust.revokedNodes <==> n in t.revokedNodes || n == node)
  {
  }

  /** While there is room, removing a known CA is revoking it. */
  lemma RemoveIsRevoke(t: Trust, h: Bytes)
    ensures h in t.adminCAs && |t.revokedAdmins| < 100_000 ==> RemoveAdmin(t, h) == RevokeAdmin(t, h)
    ensures h in t.userCAs && |t.revokedUsers| < 100_000 ==> RemoveUser(t, h) == RevokeUser(t, h)
  {
  }

  // ----- What becomes of certificates -----

  /** The certificate is in its window, and neither its issuer nor its node is revoked. */
  ghost predicate InForce(k: Crypto, t: Trust, now: Int64, p: Pair) {
    && p.body.validFrom <= now <= p.body.validUntil
    && p.body.issuer !in t.revokedAdmins && p.body.issuer !in t.revokedUsers
    && k.nodeID(p.body.pub).Some? && k.nodeID(p.body.pub).value !in t.revokedNodes
    && ValidUtf8(p.body.issuer)
  }

  ghost predicate SignedBy(k: Crypto, pub: PublicKey, p: Pair) {
    k.verify(pub, DomainSeparate(CTX_NODE_ADMISSION, CertBytes(p.body)), p.sig)
  }

  /**
  A new admin certifies what it signed; certificates of other issuers stay certified, and
  the only others to become so are those of user CAs anchored to it.
   */
  lemma AddAdminCertifies(k: Crypto, t: Trust, pub: PublicKey, list: seq<EmbeddedCA>, now: Int64, p: Pair)
    requires Reparses(k, pub) && CAHash(k, pub) !in t.adminCAs && CAHash(k, pub) !in t.revokedAdmins
    ensures var (u, h, user) := (AddAdmin(k, t, MarshalPubKey(pub)).trust, CAHash(k, pub),
                                 UserOf(k, t, list, p.body.issuer));
            && (p.body.issuer == h && user.None? ==>
                  (Certified(k, u, list, now, p) <==> InForce(k, t, now, p) && SignedBy(k, pub, p)))
            && (p.body.issuer != h && !(user.Some? && user.value.anchorAdmin == h) ==>
                  (Certified(k, u, list, now, p) <==> Certified(k, t, list, now, p)))
            && (p.body.issuer != h && Certified(k, t, list, now, p) ==> Certified(k, u, list, now, p))
  {
    AddAdminIff(k, t, pub);
    var u := AddAdmin(k, t, MarshalPubKey(pub)).trust;
    assert UserOf(k, u, list, p.body.issuer) == UserOf(k, t, list, p.body.issuer);
  }

  /** A new user CA certifies what it signed, and changes nothing for certificates of other issuers. */
  lemma AddUserCertifies(k: Crypto, t: Trust, pub: PublicKey, sig: Bytes, anchor: Bytes, list: seq<EmbeddedCA>,
                         now: Int64, p: Pair)
    requires Reparses(k, pub) && AddUser(k, t, MarshalPubKey(pub), sig, anchor).error.None?
    ensures var u, h := AddUser(k, t, MarshalPubKey(pub), sig, anchor).trust, CAHash(k, pub);
            && (p.body.issuer == h && h !in t.adminCAs ==>
                  (Certified(k, u, list, now, p) <==> InForce(k, t, now, p) && SignedBy(k, pub, p)))
            && (p.body.issuer != h ==> (Certified(k, u, list, now, p) <==> Certified(k, t, list, now, p)))
  {
    AddUserIff(k, t, pub, sig, anchor);
    var u := AddUser(k, t, MarshalPubKey(pub), sig, anchor).trust;
    if p.body.issuer != CAHash(k, pub) {
      assert UserOf(k, u, list, p.body.issuer) == UserOf(k, t, list, p.body.issuer);
    }
  }
}
