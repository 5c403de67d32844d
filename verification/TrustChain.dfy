/**
Trust chains embedded in node certificate files (pkg/authfile): building the chain from an
issuing CA, loading it into a trust store, and presenting it to a verifier.
 */
module TrustChain {
  import opened Base
  import opened Keys
  import opened Canonical
  import opened TrustStore
  import opened TrustSnapshot

  /** The public part of a CA key file that the chain is built from. */
  datatype CAKeyFile = CAKeyFile(
    kind: Bytes,
    anchorAdminPubKEM: Bytes,
    anchorAdminPubSign: Bytes,
    anchorSig: Bytes,
    anchorAdmin: Bytes)

  datatype NodeCertFile = NodeCertFile(authorities: seq<EmbeddedCA>, caPubKEM: Bytes, caPubSign: Bytes)

  function BuildEmbeddedTrustChain(pub: PublicKey, f: CAKeyFile): Option<seq<EmbeddedCA>> {
    if f.kind == ADMIN_CA then Some([EmbeddedCA(ADMIN_CA, pub.kem, pub.sign, [], [])])
    else if f.kind == USER_CA then
      if f.anchorAdminPubKEM == [] || f.anchorAdminPubSign == [] then None
      else Some([ EmbeddedCA(ADMIN_CA, f.anchorAdminPubKEM, f.anchorAdminPubSign, [], []),
                  EmbeddedCA(USER_CA, pub.kem, pub.sign, f.anchorSig, f.anchorAdmin) ])
    else None
  }

  // ----- Loading -----

  /** Legacy files without a chain trust their single issuer as an admin. */
  function AuthoritiesOf(f: NodeCertFile): seq<EmbeddedCA> {
    if f.authorities == [] then [EmbeddedCA(ADMIN_CA, f.caPubKEM, f.caPubSign, [], [])] else f.authorities
  }

  function LoadOne(k: Crypto, t: Trust, a: EmbeddedCA, kind: Bytes): Outcome {
    if a.kind != kind then Outcome(t, None)
    else
      match EmbeddedPubKeyBytes(k, a)
      case None => Fail(t, ErrInvalidKey)
      case Some(bytes) =>
        if kind == ADMIN_CA then AddAdmin(k, t, bytes) else AddUser(k, t, bytes, a.anchorSig, a.anchorAdmin)
  }

  /** One pass over the authorities; it stops at the first error and keeps what was added before. */
  function LoadKind(k: Crypto, t: Trust, authorities: seq<EmbeddedCA>, kind: Bytes): Outcome
    decreases |authorities|
  {
    if authorities == [] then Outcome(t, None)
    else
      var r := LoadOne(k, t, authorities[0], kind);
      if r.error.Some? then r else LoadKind(k, r.trust, authorities[1..], kind)
  }

  function LoadTrust(k: Crypto, t: Trust, authorities: seq<EmbeddedCA>): Outcome {
    var admins := LoadKind(k, t, authorities, ADMIN_CA);
    if admins.error.Some? then admins else LoadKind(k, admins.trust, authorities, USER_CA)
  }

  method AddEmbeddedTrust(store: CarrierAuth, f: NodeCertFile) returns (err: Option<AuthError>)
    requires store.Valid()
    modifies store.maps.admins, store.maps.users
    ensures Outcome(store.State(), err) == LoadTrust(store.k, old(store.State()), AuthoritiesOf(f))
  {
    var authorities := AuthoritiesOf(f);
    var k := store.k;
    assert authorities[0..] == authorities;
    for i := 0 to |authorities|
      invariant LoadKind(k, old(store.State()), authorities, ADMIN_CA) ==
        LoadKind(k, store.State(), authorities[i..], ADMIN_CA)
    {
      assert authorities[i..][0] == authorities[i] && authorities[i..][1..] == authorities[i + 1..];
      if authorities[i].kind != ADMIN_CA {
        continue;
      }
      var bytes := EmbeddedPubKeyBytes(k, authorities[i]);
      if bytes.None? {
        return Some(ErrInvalidKey);
      }
      err := store.AddAdminPubKey(bytes.value);
      if err.Some? {
        return;
      }
    }
    ghost var admins := store.State();
    for i := 0 to |authorities|
      invariant LoadKind(k, admins, authorities, USER_CA) == LoadKind(k, store.State(), authorities[i..], USER_CA)
    {
      assert authorities[i..][0] == authorities[i] && authorities[i..][1..] == authorities[i + 1..];
      if authorities[i].kind != USER_CA {
        continue;
      }
      var bytes := EmbeddedPubKeyBytes(k, authorities[i]);
      if bytes.None? {
        return Some(ErrInvalidKey);
      }
      err := store.AddUserPubKey(bytes.value, authorities[i].anchorSig, authorities[i].anchorAdmin);
      if err.Some? {
        return;
      }
    }
    return None;
  }

  /** A chain is built for an admin, and for a user CA whose file names its anchor's key; for nothing else. */
  lemma BuildIff(pub: PublicKey, f: CAKeyFile)
    ensures BuildEmbeddedTrustChain(pub, f).Some? <==>
      || f.kind == Ascii("admin-ca")
      || (f.kind == Ascii("user-ca") && f.anchorAdminPubKEM != [] && f.anchorAdminPubSign != [])
  {
    KindsDiffer();
  }

  // ----- What is loaded -----

  /** A file with a chain loads the whole chain; one without loads its top-level key as an admin. */
  lemma LoadedAuthorities(f: NodeCertFile)
    ensures f.authorities != [] ==> AuthoritiesOf(f) == f.authorities
    ensures f.authorities == [] ==>
      && |AuthoritiesOf(f)| == 1
      && AuthoritiesOf(f)[0].kind == ADMIN_CA
      && AuthoritiesOf(f)[0].pubKEM == f.caPubKEM && AuthoritiesOf(f)[0].pubSign == f.caPubSign
  {
  }

  /** The store operations that load the authorities of one kind, in order. */
  function LoadOps(k: Crypto, authorities: seq<EmbeddedCA>, kind: Bytes): seq<Op>
    decreases |authorities|
  {
    if authorities == [] then []
    else
      var (a, bytes, rest) := (authorities[0], EmbeddedPubKeyBytes(k, authorities[0]),
                               LoadOps(k, authorities[1..], kind));
      if a.kind != kind || bytes.None? then rest
      else if kind == ADMIN_CA then [OpAddAdmin(bytes.value)] + rest
      else [OpAddUser(bytes.value, a.anchorSig, a.anchorAdmin)] + rest
  }

  /** Each of the operations succeeds when its turn comes. */
  ghost predicate AllSucceed(k: Crypto, t: Trust, ops: seq<Op>)
    decreases |ops|
  {
    ops == [] || (Apply(k, t, ops[0]).error.None? && AllSucceed(k, Apply(k, t, ops[0]).trust, ops[1..]))
  }

  ghost predicate KeysParse(k: Crypto, authorities: seq<EmbeddedCA>, kind: Bytes) {
    forall a :: a in authorities && a.kind == kind ==> EmbeddedPubKeyBytes(k, a).Some?
  }

  lemma LoadHead(k: Crypto, t: Trust, authorities: seq<EmbeddedCA>, kind: Bytes)
    requires authorities != [] && (kind == ADMIN_CA || kind == USER_CA)
    ensures var (a, rest) := (authorities[0], LoadOps(k, authorities[1..], kind));
            && (a.kind != kind ==> LoadOne(k, t, a, kind) == Outcome(t, None) && LoadOps(k, authorities, kind) == rest)
            && (a.kind == kind && EmbeddedPubKeyBytes(k, a).Some? ==>
                  exists op :: LoadOps(k, authorities, kind) == [op] + rest
                    && LoadOne(k, t, a, kind) == Apply(k, t, op))
  {
    var a := authorities[0];
    var bytes := EmbeddedPubKeyBytes(k, a);
    if a.kind == kind && bytes.Some? {
      var op := if kind == ADMIN_CA then OpAddAdmin(bytes.value)
        else OpAddUser(bytes.value, a.anchorSig, a.anchorAdmin);
      assert LoadOne(k, t, a, kind) == Apply(k, t, op);
    }
  }

  /**
  One pass succeeds exactly when every key parses and every addition succeeds; then it is
  those additions in order.
   */
  lemma {:induction false} LoadKindIff(k: Crypto, t: Trust, authorities: seq<EmbeddedCA>, kind: Bytes)
    requires kind == ADMIN_CA || kind == USER_CA
    ensures var (r, ops) := (LoadKind(k, t, authorities, kind), LoadOps(k, authorities, kind));
            && (r.error.None? <==> KeysParse(k, authorities, kind) && AllSucceed(k, t, ops))
            && (r.error.None? ==> r.trust == Run(k, t, ops))
    decreases |authorities|
  {
    if authorities != [] {
      var a, rest := authorities[0], LoadOps(k, authorities[1..], kind);
      var r := LoadOne(k, t, a, kind);
      LoadHead(k, t, authorities, kind);
      LoadKindIff(k, r.trust, authorities[1..], kind);
      assert forall x :: x in authorities <==> x == a || x in authorities[1..];
      if a.kind == kind && EmbeddedPubKeyBytes(k, a).Some? {
        var op :| LoadOps(k, authorities, kind) == [op] + rest && r == Apply(k, t, op);
        assert ([op] + rest)[1..] == rest;
        RunHead(k, t, op, rest);
      }
    }
  }

  /** One pass stops at the first authority that cannot be added, with its error and with what was added before. */
  lemma {:induction false} LoadKindStops(k: Crypto, t: Trust, before: seq<EmbeddedCA>, a: EmbeddedCA,
                                         after: seq<EmbeddedCA>, kind: Bytes)
    requires LoadKind(k, t, before, kind).error.None? && a.kind == kind
    requires LoadOne(k, LoadKind(k, t, before, kind).trust, a, kind).error.Some?
    ensures LoadKind(k, t, before + [a] + after, kind) == LoadOne(k, LoadKind(k, t, before, kind).trust, a, kind)
    decreases |before|
  {
    var all := before + [a] + after;
    if before == [] {
      assert all[0] == a;
    } else {
      assert all[0] == before[0] && all[1..] == before[1..] + [a] + after;
      LoadKindStops(k, LoadOne(k, t, before[0], kind).trust, before[1..], a, after, kind);
    }
  }

  /** Loading succeeds exactly when all admins and then all users can be added, and then has added them all. */
  lemma LoadTrustIff(k: Crypto, t: Trust, authorities: seq<EmbeddedCA>)
    ensures var (r, admins, users) :=
              (LoadTrust(k, t, authorities), LoadOps(k, authorities, ADMIN_CA), LoadOps(k, authorities, USER_CA));
            && (r.error.None? <==>
                  && KeysParse(k, authorities, ADMIN_CA) && AllSucceed(k, t, admins)
                  && KeysParse(k, authorities, USER_CA) && AllSucceed(k, Run(k, t, admins), users))
            && (r.error.None? ==> r.trust == Run(k, t, admins + users))
  {
    var admins, users := LoadOps(k, authorities, ADMIN_CA), LoadOps(k, authorities, USER_CA);
    LoadKindIff(k, t, authorities, ADMIN_CA);
    LoadKindIff(k, Run(k, t, admins), authorities, USER_CA);
    RunAppend(k, t, admins, users);
  }

  // ----- Build and load agree -----

  /** The file of a user CA whose anchor is a genuine signature by the given admin key. */
  ghost predicate GenuineUserFile(k: Crypto, pub: PublicKey, f: CAKeyFile, admin: PublicKey) {
    && f.kind == USER_CA
    && f.anchorAdminPubKEM == admin.kem && f.anchorAdminPubSign == admin.sign
    && f.anchorAdmin == CAHash(k, admin)
    && Reparses(k, pub) && Reparses(k, admin)
    && k.verify(admin, AnchorMessage(pub), f.anchorSig)
  }

  lemma KindsDiffer()
    ensures ADMIN_CA != USER_CA
  {
    assert |ADMIN_CA| == 8 && |USER_CA| == 7;
  }

  lemma EmbeddedKey(k: Crypto, a: EmbeddedCA, pub: PublicKey)
    requires Reparses(k, pub) && a.pubKEM == pub.kem && a.pubSign == pub.sign
    ensures EmbeddedPubKeyBytes(k, a) == Some(MarshalPubKey(pub))
    ensures SplitAndParsePubKey(k, MarshalPubKey(pub)) == Some(pub)
  {
    SplitMarshalRoundTrip(k, pub);
  }

  /** A certificate in its window, for a node with a known and unrevoked identifier. */
  ghost predicate Current(k: Crypto, t: Trust, c: CertBody, now: Int64) {
    c.validFrom <= now <= c.validUntil && k.nodeID(c.pub).Some? && k.nodeID(c.pub).value !in t.revokedNodes
  }

  /** An admin CA's chain loads into an empty store and makes that CA's current certificates valid at admin scope. */
  lemma AdminChainLoads(k: Crypto, pub: PublicKey, f: CAKeyFile)
    requires f.kind == ADMIN_CA && Reparses(k, pub)
    ensures BuildEmbeddedTrustChain(pub, f).Some?
    ensures
      var r := LoadTrust(k, EMPTY_TRUST, BuildEmbeddedTrustChain(pub, f).value);
      && r.error.None?
      && r.trust == EMPTY_TRUST.(adminCAs := map[CAHash(k, pub) := AdminCA(pub, CAHash(k, pub))])
      && (forall c: CertBody, now: Int64 :: c.issuer == CAHash(k, pub) ==>
            (CertValid(k, r.trust, c, now) <==> Current(k, r.trust, c, now)) && c.issuer in r.trust.adminCAs)
  {
    KindsDiffer();
    var chain := BuildEmbeddedTrustChain(pub, f).value;
    EmbeddedKey(k, chain[0], pub);
    var t := EMPTY_TRUST.(adminCAs := map[CAHash(k, pub) := AdminCA(pub, CAHash(k, pub))]);
    assert chain[1..] == [];
    assert LoadOne(k, EMPTY_TRUST, chain[0], ADMIN_CA) == Outcome(t, None);
    assert LoadKind(k, t, chain[1..], ADMIN_CA) == Outcome(t, None);
    assert LoadOne(k, t, chain[0], USER_CA) == Outcome(t, None);
    assert LoadKind(k, t, chain[1..], USER_CA) == Outcome(t, None);
  }

  /** The store that an anchored user CA's chain builds from nothing. */
  function UserChainStore(k: Crypto, pub: PublicKey, f: CAKeyFile, admin: PublicKey): Trust {
    var a, u := CAHash(k, admin), CAHash(k, pub);
    Trust(map[a := AdminCA(admin, a)], map[u := UserCA(pub, u, f.anchorSig, f.anchorAdmin)], {}, {}, {})
  }

  lemma UserChainSteps(k: Crypto, pub: PublicKey, f: CAKeyFile, admin: PublicKey)
    requires GenuineUserFile(k, pub, f, admin)
    ensures BuildEmbeddedTrustChain(pub, f).Some?
    ensures LoadTrust(k, EMPTY_TRUST, BuildEmbeddedTrustChain(pub, f).value) ==
      Outcome(UserChainStore(k, pub, f, admin), None)
  {
    KindsDiffer();
    var chain := BuildEmbeddedTrustChain(pub, f).value;
    EmbeddedKey(k, chain[0], admin);
    EmbeddedKey(k, chain[1], pub);
    var a, u := CAHash(k, admin), CAHash(k, pub);
    var t := EMPTY_TRUST.(adminCAs := map[a := AdminCA(admin, a)]);
    assert chain[1..] == [chain[1]] && chain[1..][1..] == [];
    assert LoadOne(k, EMPTY_TRUST, chain[0], ADMIN_CA) == Outcome(t, None);
    assert LoadOne(k, t, chain[1], ADMIN_CA) == Outcome(t, None);
    assert LoadKind(k, t, chain[1..], ADMIN_CA) == Outcome(t, None);
    assert LoadOne(k, t, chain[0], USER_CA) == Outcome(t, None);
    assert LoadOne(k, t, chain[1], USER_CA) == Outcome(UserChainStore(k, pub, f, admin), None);
    assert LoadKind(k, t, chain[1..], USER_CA) == Outcome(UserChainStore(k, pub, f, admin), None);
  }

  /**
  An anchored user CA's chain loads into an empty store and makes that CA's current
  certificates valid; they are user-scoped exactly when the two CAs have different hashes.
   */
  lemma UserChainLoads(k: Crypto, pub: PublicKey, f: CAKeyFile, admin: PublicKey)
    requires GenuineUserFile(k, pub, f, admin)
    ensures BuildEmbeddedTrustChain(pub, f).Some?
    ensures
      var r := LoadTrust(k, EMPTY_TRUST, BuildEmbeddedTrustChain(pub, f).value);
      && r.error.None?
      && (forall c: CertBody, now: Int64 :: c.issuer == CAHash(k, pub) ==>
            && (CertValid(k, r.trust, c, now) <==> Current(k, r.trust, c, now))
            && c.issuer in r.trust.userCAs
            && (c.issuer in r.trust.adminCAs <==> CAHash(k, pub) == CAHash(k, admin)))
  {
    UserChainSteps(k, pub, f, admin);
  }

  /** Any verifier that trusts the anchor, with neither CA revoked, accepts the chain as embedded authorities. */
  lemma UserChainPresents(k: Crypto, pub: PublicKey, f: CAKeyFile, admin: PublicKey, t: Trust)
    requires GenuineUserFile(k, pub, f, admin)
    requires CAHash(k, admin) in t.adminCAs && t.adminCAs[CAHash(k, admin)].pub == admin
    requires !CARevoked(t, CAHash(k, admin)) && !CARevoked(t, CAHash(k, pub))
    ensures BuildEmbeddedTrustChain(pub, f).Some?
    ensures
      var ext := WithEmbeddedAuthorities(k, t, BuildEmbeddedTrustChain(pub, f).value);
      && ext.Ok?
      && CAHash(k, pub) in ext.value.userCAs
      && (CAHash(k, pub) !in t.userCAs ==>
            forall c: CertBody, now: Int64 :: c.issuer == CAHash(k, pub) ==>
              (CertValid(k, ext.value, c, now) <==> Current(k, t, c, now)))
  {
    KindsDiffer();
    var chain := BuildEmbeddedTrustChain(pub, f).value;
    EmbeddedKey(k, chain[0], admin);
    EmbeddedKey(k, chain[1], pub);
    var u := CAHash(k, pub);
    var ext := if u in t.userCAs then t else t.(userCAs := t.userCAs[u := UserCA(pub, u, f.anchorSig, f.anchorAdmin)]);
    assert chain[1..] == [chain[1]] && chain[1..][1..] == [];
    assert EmbeddedAdminError(k, t, chain[0]) == None;
    assert EmbeddedAdminsError(k, t, chain[1..]) == None;
    assert AddEmbeddedUser(k, t, chain[1]) == Ok(ext);
    assert AddEmbeddedUsers(k, t, chain[1..]) == Ok(ext);
  }

  /**
  An admin CA's chain changes nothing: it is accepted exactly by verifiers that already trust
  an admin of that hash.
   */
  lemma AdminChainPresents(k: Crypto, pub: PublicKey, f: CAKeyFile, t: Trust)
    requires f.kind == ADMIN_CA && Reparses(k, pub)
    ensures BuildEmbeddedTrustChain(pub, f).Some?
    ensures
      var ext := WithEmbeddedAuthorities(k, t, BuildEmbeddedTrustChain(pub, f).value);
      && (ext.Ok? <==> CAHash(k, pub) in t.adminCAs && CAHash(k, pub) !in t.revokedAdmins)
      && (ext.Ok? ==> ext.value == t)
  {
    KindsDiffer();
    var chain := BuildEmbeddedTrustChain(pub, f).value;
    EmbeddedKey(k, chain[0], pub);
    assert chain[1..] == [];
    assert EmbeddedAdminsError(k, t, chain[1..]) == None;
    assert AddEmbeddedUsers(k, t, chain[1..]) == Ok(t);
  }
}
