/**
Verification against a snapshot of the trust store (internal/auth/trust_snapshot.go):
which certificates are valid, which of those carry a good CA signature, what the counted
certificates say about the peer, and how peer-supplied authorities extend the snapshot.
 */
module TrustSnapshot {
  import opened Base
  import opened Keys
  import opened Canonical
  import opened TrustStore

  // ----- Single certificates -----

  predicate KnownIssuer(t: Trust, hash: Bytes) {
    hash in t.adminCAs || hash in t.userCAs
  }

  predicate CARevoked(t: Trust, hash: Bytes) {
    hash in t.revokedAdmins || hash in t.revokedUsers
  }

  /** The anchor of a user CA must be present and not revoked; other issuers have no anchor. */
  predicate AnchorValid(t: Trust, hash: Bytes) {
    hash in t.userCAs ==>
      var anchor := t.userCAs[hash].anchorAdmin;
      anchor !in t.revokedAdmins && anchor in t.adminCAs
  }

  predicate CertValid(k: Crypto, t: Trust, c: CertBody, now: Int64) {
    && c.validFrom <= now <= c.validUntil
    && KnownIssuer(t, c.issuer)
    && !CARevoked(t, c.issuer)
    && AnchorValid(t, c.issuer)
    && k.nodeID(c.pub).Some?
    && k.nodeID(c.pub).value !in t.revokedNodes
  }

  /** The admin map is consulted before the user map. */
  function IssuerKey(t: Trust, hash: Bytes): PublicKey
    requires KnownIssuer(t, hash)
  {
    if hash in t.adminCAs then t.adminCAs[hash].pub else t.userCAs[hash].pub
  }

  function VerifySingleCert(k: Crypto, t: Trust, c: CertBody, sig: Bytes): Option<NodeID> {
    if KnownIssuer(t, c.issuer) then VerifyNodeCert(k, IssuerKey(t, c.issuer), c, sig) else None
  }

  /** A certificate together with the CA signature presented for it. */
  datatype Pair = Pair(body: CertBody, sig: Bytes)

  /** The certificate is valid now and its CA signature verifies: it counts. */
  predicate Counts(k: Crypto, t: Trust, now: Int64, p: Pair) {
    CertValid(k, t, p.body, now) && VerifySingleCert(k, t, p.body, p.sig).Some?
  }

  predicate AdminIssued(t: Trust, p: Pair) {
    p.body.issuer in t.adminCAs
  }

  // ----- The chain -----

  datatype AuthResult = AuthResult(pub: PublicKey, nodeID: NodeID, adminValid: bool, userHashes: seq<Bytes>)

  /** The counted pairs, in the order presented. */
  function CountedOf(k: Crypto, t: Trust, now: Int64, ps: seq<Pair>): (cs: seq<Pair>)
    ensures forall p :: p in cs <==> p in ps && Counts(k, t, now, p)
    decreases |ps|
  {
    if ps == [] then []
    else
      assert forall p :: p in ps <==> p == ps[0] || p in ps[1..];
      (if Counts(k, t, now, ps[0]) then [ps[0]] else []) + CountedOf(k, t, now, ps[1..])
  }

  predicate HasAdmin(t: Trust, cs: seq<Pair>) {
    exists i :: 0 <= i < |cs| && AdminIssued(t, cs[i])
  }

  /** The issuers of the pairs that no admin issued, in order and with repetitions. */
  function UserIssuers(t: Trust, cs: seq<Pair>): seq<Bytes>
    decreases |cs|
  {
    if cs == [] then []
    else (if AdminIssued(t, cs[0]) then [] else [cs[0].body.issuer]) + UserIssuers(t, cs[1..])
  }

  lemma {:induction false} UserIssuersMember(t: Trust, cs: seq<Pair>, h: Bytes)
    ensures h in UserIssuers(t, cs) <==> exists i :: 0 <= i < |cs| && !AdminIssued(t, cs[i]) && cs[i].body.issuer == h
    decreases |cs|
  {
    if cs != [] {
      UserIssuersMember(t, cs[1..], h);
      assert forall i :: 0 < i < |cs| ==> cs[i] == cs[1..][i - 1];
      if i :| 0 <= i < |cs| && !AdminIssued(t, cs[i]) && cs[i].body.issuer == h {
        assert i == 0 || cs[1..][i - 1] == cs[i];
      }
    }
  }

  predicate SameNode(k: Crypto, cs: seq<Pair>) {
    forall i :: 0 <= i < |cs| ==> k.nodeID(cs[i].body.pub) == k.nodeID(cs[0].body.pub)
  }

  /** What the counted pairs establish about the peer. */
  function Summarize(k: Crypto, t: Trust, cs: seq<Pair>): Result<AuthResult, AuthError>
    requires forall p :: p in cs ==> k.nodeID(p.body.pub).Some?
  {
    if cs == [] then Err(ErrNoValidCerts)
    else if !SameNode(k, cs) then Err(ErrMismatchedNodeID)
    else
      assert cs[0] in cs;
      Ok(AuthResult(cs[0].body.pub, k.nodeID(cs[0].body.pub).value, HasAdmin(t, cs), UserIssuers(t, cs)))
  }

  function Chain(k: Crypto, t: Trust, now: Int64, ps: seq<Pair>): Result<AuthResult, AuthError> {
    Summarize(k, t, CountedOf(k, t, now, ps))
  }

  // ----- The loops of verifyChain -----

  function Zip(certs: seq<CertBody>, sigs: seq<Bytes>): (ps: seq<Pair>)
    requires |certs| == |sigs|
    ensures |ps| == |certs|
    ensures forall i :: 0 <= i < |certs| ==> ps[i] == Pair(certs[i], sigs[i])
  {
    if certs == [] then [] else [Pair(certs[0], sigs[0])] + Zip(certs[1..], sigs[1..])
  }

  /** The indices from i on whose certificates are valid. */
  function ValidFrom(k: Crypto, t: Trust, certs: seq<CertBody>, now: Int64, i: nat): (idxs: seq<nat>)
    requires i <= |certs|
    ensures forall j :: 0 <= j < |idxs| ==> i <= idxs[j] < |certs|
    decreases |certs| - i
  {
    if i == |certs| then []
    else (if CertValid(k, t, certs[i], now) then [i] else []) + ValidFrom(k, t, certs, now, i + 1)
  }

  /** The pairs at the given indices whose CA signature verifies. */
  function Authorized(k: Crypto, t: Trust, certs: seq<CertBody>, sigs: seq<Bytes>, idxs: seq<nat>): seq<Pair>
    requires |certs| == |sigs|
    requires forall j :: 0 <= j < |idxs| ==> idxs[j] < |certs|
    decreases |idxs|
  {
    if idxs == [] then []
    else
      var i := idxs[0];
      (if VerifySingleCert(k, t, certs[i], sigs[i]).Some? then [Pair(certs[i], sigs[i])] else [])
      + Authorized(k, t, certs, sigs, idxs[1..])
  }

  /** Filtering first and checking signatures afterwards counts the same pairs as doing both at once. */
  lemma {:induction false} FilterThenAuthorize(k: Crypto, t: Trust, certs: seq<CertBody>, sigs: seq<Bytes>,
                                               now: Int64, i: nat)
    requires |certs| == |sigs| && i <= |certs|
    ensures Authorized(k, t, certs, sigs, ValidFrom(k, t, certs, now, i)) == CountedOf(k, t, now, Zip(certs, sigs)[i..])
    decreases |certs| - i
  {
    if i < |certs| {
      FilterThenAuthorize(k, t, certs, sigs, now, i + 1);
      var ps := Zip(certs, sigs)[i..];
      assert ps[1..] == Zip(certs, sigs)[i + 1..];
      assert ps[0] == Pair(certs[i], sigs[i]);
      if CertValid(k, t, certs[i], now) {
        var idxs := ValidFrom(k, t, certs, now, i);
        assert idxs[0] == i && idxs[1..] == ValidFrom(k, t, certs, now, i + 1);
      } else {
        assert ValidFrom(k, t, certs, now, i) == ValidFrom(k, t, certs, now, i + 1);
      }
    }
  }

  method FilterValidCerts(k: Crypto, t: Trust, certs: seq<CertBody>, now: Int64)
    returns (r: Result<seq<nat>, AuthError>)
    ensures r == var idxs := ValidFrom(k, t, certs, now, 0);
                 if idxs == [] then Err(ErrNoValidCerts) else Ok(idxs)
  {
    var valid: seq<nat> := [];
    ghost var all := ValidFrom(k, t, certs, now, 0);
    ghost var rest := all;
    for i := 0 to |certs|
      invariant rest == ValidFrom(k, t, certs, now, i)
      invariant valid + rest == all
    {
      rest := ValidFrom(k, t, certs, now, i + 1);
      if CertValid(k, t, certs[i], now) {
        Reassociate(valid, i, rest);
        valid := valid + [i];
      }
    }
    assert valid == valid + rest == all;
    return if valid == [] then Err(ErrNoValidCerts) else Ok(valid);
  }

  lemma {:induction false} UserIssuersSnoc(t: Trust, cs: seq<Pair>, p: Pair)
    ensures UserIssuers(t, cs + [p]) == UserIssuers(t, cs) + (if AdminIssued(t, p) then [] else [p.body.issuer])
    decreases |cs|
  {
    if cs != [] {
      assert (cs + [p])[1..] == cs[1..] + [p];
      UserIssuersSnoc(t, cs[1..], p);
    }
  }

  /** The loop variables of verifyAuthority after the counted pairs in cs. */
  datatype Progress = Progress(first: Option<(PublicKey, NodeID)>, adminValid: bool, userHashes: seq<Bytes>)

  ghost predicate Tracks(k: Crypto, t: Trust, cs: seq<Pair>, s: Progress) {
    && (s.first.None? <==> cs == [])
    && (s.first.Some? ==> s.first.value.0 == cs[0].body.pub && k.nodeID(cs[0].body.pub) == Some(s.first.value.1))
    && SameNode(k, cs)
    && s.adminValid == HasAdmin(t, cs)
    && s.userHashes == UserIssuers(t, cs)
  }

  /** One iteration over a counted pair of the node seen so far. */
  function Advance(t: Trust, s: Progress, p: Pair, nid: NodeID): Progress {
    Progress(
      if s.first.None? then Some((p.body.pub, nid)) else s.first,
      s.adminValid || AdminIssued(t, p),
      s.userHashes + (if AdminIssued(t, p) then [] else [p.body.issuer]))
  }

  lemma AdvanceTracks(k: Crypto, t: Trust, cs: seq<Pair>, s: Progress, p: Pair, nid: NodeID)
    requires Tracks(k, t, cs, s)
    requires k.nodeID(p.body.pub) == Some(nid)
    requires s.first.Some? ==> s.first.value.1 == nid
    ensures Tracks(k, t, cs + [p], Advance(t, s, p, nid))
  {
    UserIssuersSnoc(t, cs, p);
    if HasAdmin(t, cs) {
      var i :| 0 <= i < |cs| && AdminIssued(t, cs[i]);
      assert (cs + [p])[i] == cs[i];
    }
    assert (cs + [p])[|cs|] == p;
  }

  lemma AuthorizedHaveIDs(k: Crypto, t: Trust, certs: seq<CertBody>, sigs: seq<Bytes>, idxs: seq<nat>)
    requires |certs| == |sigs|
    requires forall j :: 0 <= j < |idxs| ==> idxs[j] < |certs|
    ensures forall p :: p in Authorized(k, t, certs, sigs, idxs) ==> k.nodeID(p.body.pub).Some?
    decreases |idxs|
  {
    if idxs != [] {
      AuthorizedHaveIDs(k, t, certs, sigs, idxs[1..]);
    }
  }

  lemma AuthorizedNext(k: Crypto, t: Trust, certs: seq<CertBody>, sigs: seq<Bytes>, idxs: seq<nat>, j: nat)
    requires |certs| == |sigs| && j < |idxs|
    requires forall i :: 0 <= i < |idxs| ==> idxs[i] < |certs|
    ensures var (i, rest) := (idxs[j], Authorized(k, t, certs, sigs, idxs[j + 1..]));
            Authorized(k, t, certs, sigs, idxs[j..]) ==
            if VerifySingleCert(k, t, certs[i], sigs[i]).Some? then [Pair(certs[i], sigs[i])] + rest else rest
  {
    assert idxs[j..][0] == idxs[j] && idxs[j..][1..] == idxs[j + 1..];
  }

  /** A pair of a second node after the pairs seen so far makes a mismatch. */
  lemma SecondNode(k: Crypto, t: Trust, seen: seq<Pair>, s: Progress, p: Pair, nid: NodeID, rest: seq<Pair>)
    requires Tracks(k, t, seen, s) && s.first.Some? && s.first.value.1 != nid && k.nodeID(p.body.pub) == Some(nid)
    ensures !SameNode(k, (seen + [p]) + rest)
  {
    var all := (seen + [p]) + rest;
    assert all[|seen|] == p && all[0] == seen[0];
  }

  lemma TrackedSummary(k: Crypto, t: Trust, all: seq<Pair>, s: Progress)
    requires Tracks(k, t, all, s) && forall p :: p in all ==> k.nodeID(p.body.pub).Some?
    ensures Summarize(k, t, all) ==
            if s.first.None? then Err(ErrNoValidCerts)
            else Ok(AuthResult(s.first.value.0, s.first.value.1, s.adminValid, s.userHashes))
  {
  }

  /** The accumulating loop over the valid indices, with its early exit on a second node. */
  method VerifyAuthority(k: Crypto, t: Trust, certs: seq<CertBody>, sigs: seq<Bytes>, idxs: seq<nat>)
    returns (r: Result<AuthResult, AuthError>)
    requires |certs| == |sigs|
    requires forall j :: 0 <= j < |idxs| ==> idxs[j] < |certs|
    ensures forall p :: p in Authorized(k, t, certs, sigs, idxs) ==> k.nodeID(p.body.pub).Some?
    ensures r == Summarize(k, t, Authorized(k, t, certs, sigs, idxs))
  {
    ghost var all := Authorized(k, t, certs, sigs, idxs);
    AuthorizedHaveIDs(k, t, certs, sigs, idxs);
    ghost var seen: seq<Pair>, rest := [], all;
    var s := Progress(None, false, []);
    assert idxs[0..] == idxs;
    for j := 0 to |idxs|
      invariant rest == Authorized(k, t, certs, sigs, idxs[j..]) && seen + rest == all
      invariant Tracks(k, t, seen, s)
    {
      var i := idxs[j];
      var nid := VerifySingleCert(k, t, certs[i], sigs[i]);
      AuthorizedNext(k, t, certs, sigs, idxs, j);
      rest := Authorized(k, t, certs, sigs, idxs[j + 1..]);
      if nid.None? {
        continue;
      }
      var p := Pair(certs[i], sigs[i]);
      Reassociate(seen, p, rest);
      if s.first.Some? && s.first.value.1 != nid.value {
        SecondNode(k, t, seen, s, p, nid.value, rest);
        return Err(ErrMismatchedNodeID);
      }
      AdvanceTracks(k, t, seen, s, p, nid.value);
      s := Advance(t, s, p, nid.value);
      seen := seen + [p];
    }
    assert seen == seen + rest;
    TrackedSummary(k, t, all, s);
    if s.first.None? {
      return Err(ErrNoValidCerts);
    }
    return Ok(AuthResult(s.first.value.0, s.first.value.1, s.adminValid, s.userHashes));
  }

  /** The two-pass verification computes the declarative summary of the counted pairs. */
  method VerifyChain(k: Crypto, t: Trust, certs: seq<CertBody>, sigs: seq<Bytes>, now: Int64)
    returns (r: Result<AuthResult, AuthError>)
    requires |certs| == |sigs|
    ensures r == Chain(k, t, now, Zip(certs, sigs))
  {
    FilterThenAuthorize(k, t, certs, sigs, now, 0);
    assert Zip(certs, sigs)[0..] == Zip(certs, sigs);
    var valid := FilterValidCerts(k, t, certs, now);
    if valid.Err? {
      return Err(valid.error);
    }
    r := VerifyAuthority(k, t, certs, sigs, valid.value);
  }

  // ----- Peer-supplied authorities -----

  datatype EmbeddedCA = EmbeddedCA(kind: Bytes, pubKEM: Bytes, pubSign: Bytes, anchorSig: Bytes, anchorAdmin: Bytes)

  const ADMIN_CA: Bytes := Ascii("admin-ca")
  const USER_CA: Bytes := Ascii("user-ca")

  function EmbeddedPubKeyBytes(k: Crypto, a: EmbeddedCA): Option<Bytes> {
    match ParsePublicKey(k, a.pubKEM, a.pubSign)
    case None => None
    case Some(pub) => Some(MarshalPubKey(pub))
  }

  /** A supplied admin must already be trusted; it never changes the snapshot. */
  function EmbeddedAdminError(k: Crypto, t: Trust, a: EmbeddedCA): Option<AuthError> {
    match EmbeddedPubKeyBytes(k, a)
    case None => Some(ErrInvalidKey)
    case Some(bytes) =>
      match NewAdminCA(k, bytes)
      case None => Some(ErrInvalidKey)
      case Some(admin) =>
        if admin.hash in t.revokedAdmins then Some(ErrCARevoked)
        else if admin.hash !in t.adminCAs then Some(ErrUnknownIssuer)
        else None
  }

  /** A supplied user CA is added when a trusted, unrevoked admin anchored it. */
  function AddEmbeddedUser(k: Crypto, t: Trust, a: EmbeddedCA): Result<Trust, AuthError> {
    match EmbeddedPubKeyBytes(k, a)
    case None => Err(ErrInvalidKey)
    case Some(bytes) =>
      match NewUserCA(k, bytes, a.anchorSig, a.anchorAdmin)
      case None => Err(ErrInvalidKey)
      case Some(user) =>
        if user.hash in t.revokedUsers then Err(ErrCARevoked)
        else if user.hash in t.userCAs then Ok(t)
        else if a.anchorAdmin !in t.adminCAs then Err(ErrAnchorAdminNotFound)
        else if a.anchorAdmin in t.revokedAdmins then Err(ErrAnchorAdminRevoked)
        else if !k.verify(t.adminCAs[a.anchorAdmin].pub, DomainSeparate(CTX_USER_CA_ANCHOR, bytes), a.anchorSig)
        then Err(ErrInvalidAnchorSig)
        else Ok(t.(userCAs := t.userCAs[user.hash := user]))
  }

  function EmbeddedAdminsError(k: Crypto, t: Trust, authorities: seq<EmbeddedCA>): Option<AuthError>
    decreases |authorities|
  {
    if authorities == [] then None
    else
      var err := if authorities[0].kind == ADMIN_CA then EmbeddedAdminError(k, t, authorities[0]) else None;
      if err.Some? then err else EmbeddedAdminsError(k, t, authorities[1..])
  }

  function AddEmbeddedUsers(k: Crypto, t: Trust, authorities: seq<EmbeddedCA>): Result<Trust, AuthError>
    decreases |authorities|
  {
    if authorities == [] then Ok(t)
    else
      var next := if authorities[0].kind == USER_CA then AddEmbeddedUser(k, t, authorities[0]) else Ok(t);
      if next.Err? then next else AddEmbeddedUsers(k, next.value, authorities[1..])
  }

  function WithEmbeddedAuthorities(k: Crypto, t: Trust, authorities: seq<EmbeddedCA>): Result<Trust, AuthError> {
    match EmbeddedAdminsError(k, t, authorities)
    case Some(e) => Err(e)
    case None => AddEmbeddedUsers(k, t, authorities)
  }

  // ----- Snapshots as objects -----

  /** Copies a map entry by entry into a new one. */
  method CopyTable<K, V>(t: Table<K, V>) returns (c: Table<K, V>)
    ensures fresh(c) && c.entries == t.entries
  {
    c := new Table<K, V>();
    var rest := t.entries.Keys;
    while rest != {}
      invariant rest <= t.entries.Keys
      invariant c.entries == t.entries - rest
      decreases |rest|
    {
      var key :| key in rest;
      c.entries := c.entries[key := t.entries[key]];
      rest := rest - {key};
    }
  }

  /** Copies all five maps; nothing of the copy is shared with the original. */
  method CopyTables(ts: Tables) returns (snap: Tables)
    ensures fresh(Cells(snap)) && Separate(snap) && Read(snap) == Read(ts)
  {
    var admins := CopyTable(ts.admins);
    var users := CopyTable(ts.users);
    var revokedAdmins := CopyTable(ts.revokedAdmins);
    var revokedUsers := CopyTable(ts.revokedUsers);
    var revokedNodes := CopyTable(ts.revokedNodes);
    snap := Tables(admins, users, revokedAdmins, revokedUsers, revokedNodes);
  }

  /** Adds one supplied user CA to a snapshot in place; only its map of user CAs may change. */
  method AddEmbeddedUserTo(k: Crypto, ts: Tables, a: EmbeddedCA) returns (err: Option<AuthError>)
    requires Separate(ts)
    modifies ts.users
    ensures match AddEmbeddedUser(k, old(Read(ts)), a)
            case Err(e) => err == Some(e) && Read(ts) == old(Read(ts))
            case Ok(next) => err == None && Read(ts) == next
  {
    var bytes := EmbeddedPubKeyBytes(k, a);
    if bytes.None? {
      return Some(ErrInvalidKey);
    }
    var parsed := NewUserCA(k, bytes.value, a.anchorSig, a.anchorAdmin);
    if parsed.None? {
      return Some(ErrInvalidKey);
    }
    var user := parsed.value;
    if user.hash in ts.revokedUsers.entries {
      return Some(ErrCARevoked);
    }
    if user.hash in ts.users.entries {
      return None;
    }
    if a.anchorAdmin !in ts.admins.entries {
      return Some(ErrAnchorAdminNotFound);
    }
    if a.anchorAdmin in ts.revokedAdmins.entries {
      return Some(ErrAnchorAdminRevoked);
    }
    if !k.verify(ts.admins.entries[a.anchorAdmin].pub, DomainSeparate(CTX_USER_CA_ANCHOR, bytes.value), a.anchorSig) {
      return Some(ErrInvalidAnchorSig);
    }
    ts.users.entries := ts.users.entries[user.hash := user];
    return None;
  }

  method CheckEmbeddedAdmins(k: Crypto, t: Trust, authorities: seq<EmbeddedCA>) returns (err: Option<AuthError>)
    ensures err == EmbeddedAdminsError(k, t, authorities)
  {
    for i := 0 to |authorities|
      invariant EmbeddedAdminsError(k, t, authorities) == EmbeddedAdminsError(k, t, authorities[i..])
    {
      assert authorities[i..][1..] == authorities[i + 1..];
      if authorities[i].kind != ADMIN_CA {
        continue;
      }
      err := EmbeddedAdminError(k, t, authorities[i]);
      if err.Some? {
        return;
      }
    }
    err := None;
  }

  method AddEmbeddedUsersTo(k: Crypto, ts: Tables, authorities: seq<EmbeddedCA>) returns (err: Option<AuthError>)
    requires Separate(ts)
    modifies ts.users
    ensures AddEmbeddedUsers(k, old(Read(ts)), authorities) == if err.Some? then Err(err.value) else Ok(Read(ts))
  {
    ghost var start, here := Read(ts), Read(ts);
    assert authorities[0..] == authorities;
    for i := 0 to |authorities|
      invariant Read(ts) == here
        && AddEmbeddedUsers(k, start, authorities) == AddEmbeddedUsers(k, here, authorities[i..])
    {
      assert authorities[i..][0] == authorities[i] && authorities[i..][1..] == authorities[i + 1..];
      if authorities[i].kind != USER_CA {
        continue;
      }
      err := AddEmbeddedUserTo(k, ts, authorities[i]);
      if err.Some? {
        return;
      }
      here := Read(ts);
    }
    err := None;
  }

  /**
  The two dispatching loops work on a clone: all admins are checked before any user CA is
  added, and neither the snapshot nor anything it might share is changed.
   */
  method ExtendSnapshot(k: Crypto, ts: Tables, authorities: seq<EmbeddedCA>)
    returns (clone: Tables, err: Option<AuthError>)
    ensures fresh(Cells(clone)) && Separate(clone)
    ensures WithEmbeddedAuthorities(k, Read(ts), authorities) == if err.Some? then Err(err.value) else Ok(Read(clone))
  {
    clone := CopyTables(ts);
    err := CheckEmbeddedAdmins(k, Read(clone), authorities);
    if err.None? {
      err := AddEmbeddedUsersTo(k, clone, authorities);
    }
  }

  /** An extension keeps everything that was there and adds only user CAs under live anchors. */
  ghost predicate Extends(t: Trust, ext: Trust) {
    && ext.adminCAs == t.adminCAs
    && ext.revokedAdmins == t.revokedAdmins
    && ext.revokedUsers == t.revokedUsers
    && ext.revokedNodes == t.revokedNodes
    && (forall h :: h in t.userCAs ==> h in ext.userCAs && ext.userCAs[h] == t.userCAs[h])
    && (forall h :: h in ext.userCAs && h !in t.userCAs ==>
          h !in t.revokedUsers && ext.userCAs[h].anchorAdmin in t.adminCAs
            && ext.userCAs[h].anchorAdmin !in t.revokedAdmins)
  }

  /** Every user CA that was added is filed under its own hash and carries a signature of the trusted admin it names. */
  ghost predicate AddedAnchored(k: Crypto, t: Trust, ext: Trust) {
    forall h :: h in ext.userCAs && h !in t.userCAs ==>
      var user := ext.userCAs[h];
      && user.hash == h == CAHash(k, user.pub)
      && user.anchorAdmin in t.adminCAs
      && k.verify(t.adminCAs[user.anchorAdmin].pub, AnchorMessage(user.pub), user.anchorSig)
  }

  lemma EmbeddedUserExtends(k: Crypto, t: Trust, a: EmbeddedCA)
    ensures AddEmbeddedUser(k, t, a).Ok? ==>
      Extends(t, AddEmbeddedUser(k, t, a).value) && AddedAnchored(k, t, AddEmbeddedUser(k, t, a).value)
  {
    var pub := ParsePublicKey(k, a.pubKEM, a.pubSign);
    if pub.Some? {
      SplitMarshalRoundTrip(k, pub.value);
    }
  }

  lemma {:induction false} EmbeddedUsersExtend(k: Crypto, t: Trust, authorities: seq<EmbeddedCA>)
    requires AddEmbeddedUsers(k, t, authorities).Ok?
    ensures Extends(t, AddEmbeddedUsers(k, t, authorities).value)
    ensures AddedAnchored(k, t, AddEmbeddedUsers(k, t, authorities).value)
    decreases |authorities|
  {
    if authorities != [] {
      var next := if authorities[0].kind == USER_CA then AddEmbeddedUser(k, t, authorities[0]) else Ok(t);
      EmbeddedUserExtends(k, t, authorities[0]);
      EmbeddedUsersExtend(k, next.value, authorities[1..]);
    }
  }

  lemma EmbeddedAuthoritiesExtend(k: Crypto, t: Trust, authorities: seq<EmbeddedCA>)
    requires WithEmbeddedAuthorities(k, t, authorities).Ok?
    ensures Extends(t, WithEmbeddedAuthorities(k, t, authorities).value)
    ensures AddedAnchored(k, t, WithEmbeddedAuthorities(k, t, authorities).value)
  {
    EmbeddedUsersExtend(k, t, authorities);
  }

  /** Extending never invalidates a counted certificate, and certificates issued by admins count equally. */
  lemma ExtensionCounts(k: Crypto, t: Trust, ext: Trust, now: Int64, p: Pair)
    requires Extends(t, ext)
    ensures CertValid(k, t, p.body, now) ==> CertValid(k, ext, p.body, now)
    ensures Counts(k, t, now, p) ==> Counts(k, ext, now, p)
    ensures AdminIssued(t, p) <==> AdminIssued(ext, p)
    ensures AdminIssued(t, p) ==> (Counts(k, t, now, p) <==> Counts(k, ext, now, p))
  {
  }
}
