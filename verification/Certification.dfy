/**
What peer-supplied authorities and certificates have to satisfy, said without the code that
checks them: which chains of authorities are accepted, which CA a hash then stands for, and
which certificates are certified by a CA that is trusted or anchored to a trusted one.
 */
module Certification {
  import opened Base
  import opened Keys
  import opened Canonical
  import opened TrustStore
  import opened TrustSnapshot

  // ----- Acceptable authorities -----

  ghost function SuppliedKey(k: Crypto, a: EmbeddedCA): Option<PublicKey> {
    ParsePublicKey(k, a.pubKEM, a.pubSign)
  }

  /** The entry supplies a user CA of the given hash. */
  ghost predicate Supplies(k: Crypto, a: EmbeddedCA, h: Bytes) {
    a.kind == USER_CA && SuppliedKey(k, a).Some? && CAHash(k, SuppliedKey(k, a).value) == h
  }

  /** A supplied admin is one that is trusted and not revoked. */
  ghost predicate AdminGood(k: Crypto, t: Trust, a: EmbeddedCA) {
    && SuppliedKey(k, a).Some?
    && CAHash(k, SuppliedKey(k, a).value) in t.adminCAs
    && CAHash(k, SuppliedKey(k, a).value) !in t.revokedAdmins
  }

  /** A trusted, unrevoked admin signed the supplied user CA's key. */
  ghost predicate AnchorGood(k: Crypto, t: Trust, a: EmbeddedCA) {
    && SuppliedKey(k, a).Some?
    && a.anchorAdmin in t.adminCAs
    && a.anchorAdmin !in t.revokedAdmins
    && k.verify(t.adminCAs[a.anchorAdmin].pub, AnchorMessage(SuppliedKey(k, a).value), a.anchorSig)
  }

  /** The hash is known, or an entry of the list supplies it under a good anchor. */
  ghost predicate Backed(k: Crypto, t: Trust, list: seq<EmbeddedCA>, h: Bytes) {
    h in t.userCAs || exists a :: a in list && Supplies(k, a, h) && AnchorGood(k, t, a)
  }

  /** A supplied user CA is not revoked, and it or an earlier entry of its hash is backed. */
  ghost predicate UserGood(k: Crypto, t: Trust, list: seq<EmbeddedCA>, i: nat)
    requires i < |list|
  {
    && SuppliedKey(k, list[i]).Some?
    && var h := CAHash(k, SuppliedKey(k, list[i]).value);
       h !in t.revokedUsers && Backed(k, t, list[..i + 1], h)
  }

  ghost predicate UsersGood(k: Crypto, t: Trust, list: seq<EmbeddedCA>) {
    forall i | 0 <= i < |list| && list[i].kind == USER_CA :: UserGood(k, t, list, i)
  }

  ghost predicate AuthoritiesGood(k: Crypto, t: Trust, list: seq<EmbeddedCA>) {
    && (forall a | a in list && a.kind == ADMIN_CA :: AdminGood(k, t, a))
    && UsersGood(k, t, list)
  }

  lemma {:induction false} AdminsIff(k: Crypto, t: Trust, list: seq<EmbeddedCA>)
    ensures EmbeddedAdminsError(k, t, list).None? <==> forall a | a in list && a.kind == ADMIN_CA :: AdminGood(k, t, a)
    decreases |list|
  {
    if list != [] {
      AdminsIff(k, t, list[1..]);
      var pub := SuppliedKey(k, list[0]);
      if pub.Some? {
        SplitMarshalRoundTrip(k, pub.value);
      }
      assert forall a :: a in list <==> a == list[0] || a in list[1..];
    }
  }

  /** What one supplied user CA has to satisfy, and what it adds. */
  lemma EmbeddedUserIff(k: Crypto, t: Trust, a: EmbeddedCA)
    ensures var (pub, r) := (SuppliedKey(k, a), AddEmbeddedUser(k, t, a));
            && (r.Ok? <==>
                pub.Some? && CAHash(k, pub.value) !in t.revokedUsers
                  && (CAHash(k, pub.value) in t.userCAs || AnchorGood(k, t, a)))
            && (r.Ok? ==>
                  var h := CAHash(k, pub.value);
                  r.value == if h in t.userCAs then t
                    else t.(userCAs := t.userCAs[h := UserCA(pub.value, h, a.anchorSig, a.anchorAdmin)]))
  {
    var pub := SuppliedKey(k, a);
    if pub.Some? {
      SplitMarshalRoundTrip(k, pub.value);
    }
  }

  /** After a good head, what is backed by the longer list is backed by the rest over the larger store. */
  lemma BackedNext(k: Crypto, t: Trust, u: Trust, head: EmbeddedCA, rest: seq<EmbeddedCA>, h: Bytes)
    requires u.adminCAs == t.adminCAs && u.revokedAdmins == t.revokedAdmins
    requires forall x :: x in u.userCAs <==> x in t.userCAs || Supplies(k, head, x)
    requires forall x :: Supplies(k, head, x) ==> x in t.userCAs || AnchorGood(k, t, head)
    ensures Backed(k, t, [head] + rest, h) <==> Backed(k, u, rest, h)
  {
    assert forall a :: a in [head] + rest <==> a == head || a in rest;
    assert forall a :: AnchorGood(k, t, a) <==> AnchorGood(k, u, a);
    if Backed(k, t, [head] + rest, h) && h !in t.userCAs {
      var a :| a in [head] + rest && Supplies(k, a, h) && AnchorGood(k, t, a);
      assert a == head || (a in rest && AnchorGood(k, u, a));
    }
    if Backed(k, u, rest, h) && h !in u.userCAs {
      var a :| a in rest && Supplies(k, a, h) && AnchorGood(k, u, a);
      assert a in [head] + rest && AnchorGood(k, t, a);
    }
    if Supplies(k, head, h) && h !in t.userCAs {
      assert head in [head] + rest;
    }
  }

  lemma UsersNext(k: Crypto, t: Trust, u: Trust, list: seq<EmbeddedCA>)
    requires list != [] && u.adminCAs == t.adminCAs && u.revokedAdmins == t.revokedAdmins
      && u.revokedUsers == t.revokedUsers
    requires forall x :: x in u.userCAs <==> x in t.userCAs || Supplies(k, list[0], x)
    requires forall x :: Supplies(k, list[0], x) ==> x in t.userCAs || AnchorGood(k, t, list[0])
    requires list[0].kind == USER_CA ==> UserGood(k, t, list, 0)
    ensures UsersGood(k, t, list) <==> UsersGood(k, u, list[1..])
  {
    var rest := list[1..];
    forall i: nat | i < |rest|
      ensures rest[i] == list[i + 1]
      ensures UserGood(k, u, rest, i) <==> UserGood(k, t, list, i + 1)
    {
      assert list[..i + 2] == [list[0]] + rest[..i + 1];
      if SuppliedKey(k, rest[i]).Some? {
        BackedNext(k, t, u, list[0], rest[..i + 1], CAHash(k, SuppliedKey(k, rest[i]).value));
      }
    }
    if UsersGood(k, u, rest) {
      forall i | 0 <= i < |list| && list[i].kind == USER_CA
        ensures UserGood(k, t, list, i)
      {
        if i > 0 {
          assert UserGood(k, u, rest, i - 1);
        }
      }
    }
  }

  lemma HeadGoodIff(k: Crypto, t: Trust, list: seq<EmbeddedCA>)
    requires list != [] && list[0].kind == USER_CA
    ensures UserGood(k, t, list, 0) <==> AddEmbeddedUser(k, t, list[0]).Ok?
  {
    EmbeddedUserIff(k, t, list[0]);
    assert list[..1] == [list[0]];
    assert list[0] in list[..1];
  }

  lemma {:induction false} UsersIff(k: Crypto, t: Trust, list: seq<EmbeddedCA>)
    ensures AddEmbeddedUsers(k, t, list).Ok? <==> UsersGood(k, t, list)
    decreases |list|
  {
    if list != [] {
      var next := if list[0].kind == USER_CA then AddEmbeddedUser(k, t, list[0]) else Ok(t);
      if list[0].kind == USER_CA {
        HeadGoodIff(k, t, list);
        EmbeddedUserIff(k, t, list[0]);
      }
      if next.Ok? {
        UsersIff(k, next.value, list[1..]);
        UsersNext(k, t, next.value, list);
      }
    }
  }

  /** A snapshot is extended exactly by acceptable authorities. */
  lemma AuthoritiesIff(k: Crypto, t: Trust, list: seq<EmbeddedCA>)
    ensures WithEmbeddedAuthorities(k, t, list).Ok? <==> AuthoritiesGood(k, t, list)
  {
    AdminsIff(k, t, list);
    UsersIff(k, t, list);
  }

  // ----- Which user CA a hash stands for -----

  ghost function FirstSupplied(k: Crypto, list: seq<EmbeddedCA>, h: Bytes): Option<EmbeddedCA>
    decreases |list|
  {
    if list == [] then None
    else if Supplies(k, list[0], h) then Some(list[0])
    else FirstSupplied(k, list[1..], h)
  }

  /** The user CA of the store, or else the first one supplied. */
  ghost function UserOf(k: Crypto, t: Trust, list: seq<EmbeddedCA>, h: Bytes): Option<UserCA> {
    if h in t.userCAs then Some(t.userCAs[h])
    else
      match FirstSupplied(k, list, h)
      case None => None
      case Some(a) =>
        if SuppliedKey(k, a).None? then None
        else Some(UserCA(SuppliedKey(k, a).value, h, a.anchorSig, a.anchorAdmin))
  }

  lemma {:induction false} ExtendedUsers(k: Crypto, t: Trust, list: seq<EmbeddedCA>, h: Bytes)
    requires AddEmbeddedUsers(k, t, list).Ok?
    ensures var users := AddEmbeddedUsers(k, t, list).value.userCAs;
            UserOf(k, t, list, h) == if h in users then Some(users[h]) else None
    decreases |list|
  {
    if list != [] {
      var next := if list[0].kind == USER_CA then AddEmbeddedUser(k, t, list[0]) else Ok(t);
      if list[0].kind == USER_CA {
        EmbeddedUserIff(k, t, list[0]);
      }
      ExtendedUsers(k, next.value, list[1..], h);
    }
  }

  // ----- Certified certificates -----

  /**
  The certificate is in its window, neither its issuer nor its node is revoked, its issuer
  is a trusted admin or a user CA under a trusted, unrevoked admin, and that CA signed it.
   */
  ghost predicate Certified(k: Crypto, t: Trust, list: seq<EmbeddedCA>, now: Int64, p: Pair) {
    var (c, user) := (p.body, UserOf(k, t, list, p.body.issuer));
    && c.validFrom <= now <= c.validUntil
    && c.issuer !in t.revokedAdmins && c.issuer !in t.revokedUsers
    && k.nodeID(c.pub).Some? && k.nodeID(c.pub).value !in t.revokedNodes
    && (user.Some? ==> user.value.anchorAdmin in t.adminCAs && user.value.anchorAdmin !in t.revokedAdmins)
    && ValidUtf8(c.issuer)
    && var message := DomainSeparate(CTX_NODE_ADMISSION, CertBytes(c));
       if c.issuer in t.adminCAs then k.verify(t.adminCAs[c.issuer].pub, message, p.sig)
       else user.Some? && k.verify(user.value.pub, message, p.sig)
  }

  /** What the code counts over an extended snapshot is what the store and the authorities certify. */
  lemma CountsIff(k: Crypto, t: Trust, list: seq<EmbeddedCA>, now: Int64, p: Pair)
    requires WithEmbeddedAuthorities(k, t, list).Ok?
    ensures Counts(k, WithEmbeddedAuthorities(k, t, list).value, now, p) <==> Certified(k, t, list, now, p)
  {
    var ext := WithEmbeddedAuthorities(k, t, list).value;
    EmbeddedAuthoritiesExtend(k, t, list);
    ExtendedUsers(k, t, list, p.body.issuer);
    if KnownIssuer(ext, p.body.issuer) {
      VerifyNodeCertIff(k, IssuerKey(ext, p.body.issuer), p.body, p.sig);
    }
  }

  // ----- The chain of trust -----

  /** An admin that the store trusts. */
  ghost predicate TrustedAdmin(k: Crypto, t: Trust, admin: PublicKey) {
    && CAHash(k, admin) in t.adminCAs && CAHash(k, admin) !in t.revokedAdmins
  }

  /** The store holds this user CA, with this anchor signature, under the given admin. */
  ghost predicate Stored(k: Crypto, t: Trust, ca: PublicKey, admin: PublicKey, sig: Bytes) {
    var h := CAHash(k, ca);
    h in t.userCAs && t.userCAs[h] == UserCA(ca, h, sig, CAHash(k, admin))
  }

  /** An entry of the list presents this user CA, with this anchor signature, under the given admin. */
  ghost predicate Presented(k: Crypto, list: seq<EmbeddedCA>, ca: PublicKey, admin: PublicKey, sig: Bytes) {
    exists a :: a in list && a.kind == USER_CA && SuppliedKey(k, a) == Some(ca)
             && a.anchorSig == sig && a.anchorAdmin == CAHash(k, admin)
  }

  /** A stored or presented signature, by a key under the hash of a trusted admin, makes this key a user CA. */
  ghost predicate AnchoredKey(k: Crypto, t: Trust, list: seq<EmbeddedCA>, ca: PublicKey) {
    exists admin: PublicKey, sig: Bytes ::
      && TrustedAdmin(k, t, admin)
      && (Stored(k, t, ca, admin, sig) || Presented(k, list, ca, admin, sig))
      && k.verify(admin, DomainSeparate(CTX_USER_CA_ANCHOR, MarshalPubKey(ca)), sig)
  }

  /** The key signed the certificate, and it is a trusted admin's or anchored to one. */
  ghost predicate CertifiedBy(k: Crypto, t: Trust, list: seq<EmbeddedCA>, ca: PublicKey, p: Pair) {
    && CAHash(k, ca) == p.body.issuer
    && k.verify(ca, DomainSeparate(CTX_NODE_ADMISSION, CertBytes(p.body)), p.sig)
    && (if p.body.issuer in t.adminCAs then ca == t.adminCAs[p.body.issuer].pub && TrustedAdmin(k, t, ca)
        else AnchoredKey(k, t, list, ca))
  }

  lemma {:induction false} FirstSuppliedMember(k: Crypto, list: seq<EmbeddedCA>, h: Bytes)
    ensures FirstSupplied(k, list, h).Some? ==>
      FirstSupplied(k, list, h).value in list && Supplies(k, FirstSupplied(k, list, h).value, h)
    decreases |list|
  {
    if list != [] && !Supplies(k, list[0], h) {
      FirstSuppliedMember(k, list[1..], h);
    }
  }

  lemma StoredIsAnchored(k: Crypto, t: Trust, list: seq<EmbeddedCA>, h: Bytes)
    requires Consistent(k, t) && h in t.userCAs
    requires t.userCAs[h].anchorAdmin in t.adminCAs && t.userCAs[h].anchorAdmin !in t.revokedAdmins
    ensures AnchoredKey(k, t, list, t.userCAs[h].pub)
  {
    var user := t.userCAs[h];
    assert Anchored(k, user);
    var admin: PublicKey :|
      CAHash(k, admin) == user.anchorAdmin && k.verify(admin, AnchorMessage(user.pub), user.anchorSig);
    assert TrustedAdmin(k, t, admin) && Stored(k, t, user.pub, admin, user.anchorSig);
  }

  lemma SuppliedIsAnchored(k: Crypto, t: Trust, list: seq<EmbeddedCA>, a: EmbeddedCA)
    requires Consistent(k, t) && a in list && a.kind == USER_CA && AnchorGood(k, t, a)
    ensures AnchoredKey(k, t, list, SuppliedKey(k, a).value)
  {
    var ca, admin := SuppliedKey(k, a).value, t.adminCAs[a.anchorAdmin].pub;
    assert TrustedAdmin(k, t, admin) && Presented(k, list, ca, admin, a.anchorSig);
  }

  lemma UserIsAnchored(k: Crypto, t: Trust, list: seq<EmbeddedCA>, h: Bytes)
    requires Consistent(k, t) && WithEmbeddedAuthorities(k, t, list).Ok?
    requires UserOf(k, t, list, h).Some?
    requires var a := UserOf(k, t, list, h).value.anchorAdmin; a in t.adminCAs && a !in t.revokedAdmins
    ensures var user := UserOf(k, t, list, h).value; CAHash(k, user.pub) == h && AnchoredKey(k, t, list, user.pub)
  {
    if h in t.userCAs {
      StoredIsAnchored(k, t, list, h);
    } else {
      EmbeddedAuthoritiesExtend(k, t, list);
      ExtendedUsers(k, t, list, h);
      FirstSuppliedMember(k, list, h);
      SuppliedIsAnchored(k, t, list, FirstSupplied(k, list, h).value);
    }
  }

  /** Over every consistent store, each certificate that counts was signed by a trusted or an anchored CA. */
  lemma CountedIsCertified(k: Crypto, t: Trust, list: seq<EmbeddedCA>, now: Int64, p: Pair)
    requires Consistent(k, t) && WithEmbeddedAuthorities(k, t, list).Ok?
    requires Counts(k, WithEmbeddedAuthorities(k, t, list).value, now, p)
    ensures exists ca: PublicKey :: CertifiedBy(k, t, list, ca, p)
  {
    CountsIff(k, t, list, now, p);
    var h := p.body.issuer;
    if h in t.adminCAs {
      assert CertifiedBy(k, t, list, t.adminCAs[h].pub, p);
    } else {
      UserIsAnchored(k, t, list, h);
      assert CertifiedBy(k, t, list, UserOf(k, t, list, h).value.pub, p);
    }
  }
}
